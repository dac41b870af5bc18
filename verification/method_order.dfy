/** The order in which the methods of a class are listed: grouped by name index, groups by
    name, overloads by prototype. */
module MethodOrder {
  import opened ClassData
  import opened Sorting

  /** The decoded pools: the name index and prototype of a method index, the text of a name. */
  datatype Table = Table(nameId: nat -> nat, name: nat -> Key, prototype: nat -> Key)
  {
    function Id(m: Member): nat {
      nameId(m.index)
    }

    /** Names are compared as they continue in a descriptor, with the parenthesis after them. */
    function NameKey(id: nat): Key {
      name(id) + [0x28]
    }
  }

  function Flatten<T, U>(xs: seq<T>, f: T -> seq<U>): seq<U> {
    if xs == [] then [] else f(xs[0]) + Flatten(xs[1..], f)
  }

  function Rows<T>(xs: seq<Keyed<T>>): seq<T> {
    if xs == [] then [] else [xs[0].row] + Rows(xs[1..])
  }

  /** The name indices of some methods in order of first use. */
  function Ids(t: Table, rows: seq<Member>): seq<nat> {
    if rows == [] then []
    else
      var before := Ids(t, rows[..|rows| - 1]);
      if t.Id(rows[|rows| - 1]) in before then before else before + [t.Id(rows[|rows| - 1])]
  }

  function KeyedIds(t: Table, ids: seq<nat>): (r: seq<Keyed<nat>>)
    ensures |r| == |ids| && forall i :: 0 <= i < |r| ==> r[i] == Keyed(t.NameKey(ids[i]), ids[i])
  {
    if ids == [] then [] else [Keyed(t.NameKey(ids[0]), ids[0])] + KeyedIds(t, ids[1..])
  }

  function KeyedMethods(t: Table, rows: seq<Member>): seq<Keyed<Member>> {
    if rows == [] then [] else [Keyed(t.prototype(rows[0].index), rows[0])] + KeyedMethods(t, rows[1..])
  }

  function Named(t: Table, id: nat): Member -> bool {
    (m: Member) => t.Id(m) == id
  }

  /** The overloads of one name. */
  function Overloads(t: Table, rows: seq<Member>, id: nat): seq<Member> {
    Rows(Sort(KeyedMethods(t, Filter(rows, Named(t, id)))))
  }

  function OverloadsOf(t: Table, rows: seq<Member>): nat -> seq<Member> {
    (id: nat) => Overloads(t, rows, id)
  }

  function SortedIds(t: Table, rows: seq<Member>): seq<nat> {
    Rows(Sort(KeyedIds(t, Ids(t, rows))))
  }

  function Ordered(t: Table, rows: seq<Member>): seq<Member> {
    Flatten(SortedIds(t, rows), OverloadsOf(t, rows))
  }

  lemma {:induction false} FlattenAppend<T, U>(xs: seq<T>, ys: seq<T>, f: T -> seq<U>)
    ensures Flatten(xs + ys, f) == Flatten(xs, f) + Flatten(ys, f)
  {
    if xs == [] {
      assert xs + ys == ys;
    } else {
      assert (xs + ys)[1..] == xs[1..] + ys;
      FlattenAppend(xs[1..], ys, f);
      assert f(xs[0]) + (Flatten(xs[1..], f) + Flatten(ys, f)) == f(xs[0]) + Flatten(xs[1..], f) + Flatten(ys, f);
    }
  }

  lemma FlattenStep<T, U>(xs: seq<T>, i: nat, f: T -> seq<U>)
    requires i < |xs|
    ensures Flatten(xs[..i + 1], f) == Flatten(xs[..i], f) + f(xs[i])
  {
    assert xs[..i + 1] == xs[..i] + [xs[i]] && |[xs[i]][1..]| == 0;
    FlattenAppend(xs[..i], [xs[i]], f);
  }

  /** The groups of some methods, by name index. */
  ghost predicate Grouped(t: Table, rows: seq<Member>, ids: seq<nat>, groups: map<nat, seq<Member>>) {
    && ids == Ids(t, rows)
    && (forall id :: id in groups <==> id in ids)
    && forall id :: id in groups ==> groups[id] == Filter(rows, Named(t, id))
  }

  lemma GroupedStep(t: Table, rows: seq<Member>, m: Member, ids: seq<nat>, groups: map<nat, seq<Member>>)
    requires Grouped(t, rows, ids, groups)
    ensures var id := t.Id(m);
            if id in groups then Grouped(t, rows + [m], ids, groups[id := groups[id] + [m]])
            else Grouped(t, rows + [m], ids + [id], groups[id := [m]])
  {
    var id := t.Id(m);
    assert (rows + [m])[..|rows|] == rows;
    var after := if id in groups then groups[id := groups[id] + [m]] else groups[id := [m]];
    if id !in groups {
      IdsAreUsed(t, rows);
      FilterNothing(rows, Named(t, id));
    }
    forall other | other in after
      ensures after[other] == Filter(rows + [m], Named(t, other))
    {
      FilterAppend(rows, [m], Named(t, other));
      FilterCons(m, [], Named(t, other));
      assert [m] + [] == [m];
      assert Filter(rows, Named(t, other)) + [] == Filter(rows, Named(t, other));
    }
  }

  /** List the methods of a class: a dictionary of groups in order of first use, its keys
      sorted by name, and only the groups of overloaded names sorted by prototype. */
  method OrderMethods(t: Table, methods: seq<Member>) returns (rows: seq<Member>)
    ensures rows == Ordered(t, methods)
    ensures multiset(rows) == multiset(methods) && AllInOrder(t, rows)
  {
    OrderedIsSorted(t, methods);
    hide AllInOrder;
    hide Ids;
    var ids: seq<nat>, groups: map<nat, seq<Member>> := [], map[];
    var i := 0;
    GroupedNothing(t);
    while i < |methods|
      invariant i <= |methods| && Grouped(t, methods[..i], ids, groups)
    {
      hide Grouped;
      GroupedStep(t, methods[..i], methods[i], ids, groups);
      assert methods[..i + 1] == methods[..i] + [methods[i]];
      var id := t.Id(methods[i]);
      if id in groups {
        groups := groups[id := groups[id] + [methods[i]]];
      } else {
        ids, groups := ids + [id], groups[id := [methods[i]]];
      }
      i := i + 1;
    }
    assert methods[..i] == methods;
    var sorted := Rows(Sort(KeyedIds(t, ids)));
    SortedIdsAreIds(t, methods);
    rows := [];
    i := 0;
    while i < |sorted|
      invariant i <= |sorted| && rows == Flatten(sorted[..i], OverloadsOf(t, methods))
    {
      hide Sort;
      hide KeyedMethods;
      FlattenStep(sorted, i, OverloadsOf(t, methods));
      var group := groups[sorted[i]];
      if |group| > 1 {
        group := Rows(Sort(KeyedMethods(t, group)));
      } else {
        SortedAlready(t, group);
      }
      rows := rows + group;
      i := i + 1;
    }
    assert sorted[..i] == sorted;
  }

  lemma GroupedNothing(t: Table)
    ensures Grouped(t, [], [], map[])
  {
  }

  lemma SortedAlready(t: Table, rows: seq<Member>)
    requires |rows| <= 1
    ensures Rows(Sort(KeyedMethods(t, rows))) == rows
  {
    if rows != [] {
      assert |rows[1..]| == 0;
      SortOne(Keyed(t.prototype(rows[0].index), rows[0]));
      assert KeyedMethods(t, rows) == [Keyed(t.prototype(rows[0].index), rows[0])];
    }
  }

  lemma SortedIdsAreIds(t: Table, rows: seq<Member>)
    ensures forall id :: id in SortedIds(t, rows) ==> id in Ids(t, rows)
  {
    var keyed := KeyedIds(t, Ids(t, rows));
    SortSorts(keyed);
    forall id | id in SortedIds(t, rows)
      ensures id in Ids(t, rows)
    {
      var x := RowOf(Sort(keyed), id);
      assert x in multiset(Sort(keyed));
      assert x in keyed;
    }
  }

  lemma {:induction false} RowOf<T>(xs: seq<Keyed<T>>, row: T) returns (x: Keyed<T>)
    requires row in Rows(xs)
    ensures x in xs && x.row == row
  {
    if row == xs[0].row {
      x := xs[0];
    } else {
      x := RowOf(xs[1..], row);
    }
  }

  /** The indices in use, each listed once. */
  lemma {:induction false} IdsAreUsed(t: Table, rows: seq<Member>)
    ensures AllDistinct(Ids(t, rows))
    ensures forall id :: id in Ids(t, rows) <==> exists i :: 0 <= i < |rows| && t.Id(rows[i]) == id
  {
    if rows != [] {
      var init, last := rows[..|rows| - 1], rows[|rows| - 1];
      IdsAreUsed(t, init);
      forall id
        ensures id in Ids(t, rows) <==> exists i :: 0 <= i < |rows| && t.Id(rows[i]) == id
      {
        if id in Ids(t, init) {
          var i :| 0 <= i < |init| && t.Id(init[i]) == id;
          assert rows[i] == init[i];
        }
        if exists i :: 0 <= i < |rows| && t.Id(rows[i]) == id {
          var i :| 0 <= i < |rows| && t.Id(rows[i]) == id;
          assert i < |init| ==> init[i] == rows[i];
        }
      }
    }
  }

  lemma {:induction false} FilterNothing<T>(xs: seq<T>, keep: T -> bool)
    requires forall i :: 0 <= i < |xs| ==> !keep(xs[i])
    ensures Filter(xs, keep) == []
  {
    if xs != [] {
      FilterNothing(xs[1..], keep);
    }
  }

  lemma SortOne<T>(x: Keyed<T>)
    ensures Sort([x]) == [x] && Rows([x]) == [x.row]
  {
    assert |[x][1..]| == 0;
  }

  // ----- Ordering loses and invents nothing -----

  function Weight<T>(xs: seq<T>, w: T -> nat): nat {
    if xs == [] then 0 else w(xs[0]) + Weight(xs[1..], w)
  }

  lemma {:induction false} WeightAppend<T>(xs: seq<T>, ys: seq<T>, w: T -> nat)
    ensures Weight(xs + ys, w) == Weight(xs, w) + Weight(ys, w)
  {
    if xs == [] {
      assert xs + ys == ys;
    } else {
      assert (xs + ys)[1..] == xs[1..] + ys;
      WeightAppend(xs[1..], ys, w);
    }
  }

  lemma WeightOne<T>(x: T, w: T -> nat)
    ensures Weight([x], w) == w(x)
  {
    assert |[x][1..]| == 0;
  }

  lemma {:induction false} InsertWeight<T>(x: Keyed<T>, xs: seq<Keyed<T>>, w: T -> nat)
    ensures Weight(Rows(Insert(x, xs)), w) == w(x.row) + Weight(Rows(xs), w)
  {
    hide Less;
    if xs == [] || !Less(xs[0].key, x.key) {
      assert ([x] + xs)[1..] == xs;
      assert ([x.row] + Rows(xs))[1..] == Rows(xs);
    } else {
      InsertWeight(x, xs[1..], w);
      assert ([xs[0]] + Insert(x, xs[1..]))[1..] == Insert(x, xs[1..]);
      assert ([xs[0].row] + Rows(Insert(x, xs[1..])))[1..] == Rows(Insert(x, xs[1..]));
      assert ([xs[0].row] + Rows(xs[1..]))[1..] == Rows(xs[1..]);
    }
  }

  lemma {:induction false} SortWeight<T>(xs: seq<Keyed<T>>, w: T -> nat)
    ensures Weight(Rows(Sort(xs)), w) == Weight(Rows(xs), w)
  {
    if xs != [] {
      SortWeight(xs[1..], w);
      InsertWeight(xs[0], Sort(xs[1..]), w);
      assert ([xs[0].row] + Rows(xs[1..]))[1..] == Rows(xs[1..]);
    }
  }

  lemma {:induction false} KeyedRows(t: Table, rows: seq<Member>)
    ensures Rows(KeyedMethods(t, rows)) == rows
  {
    if rows != [] {
      KeyedRows(t, rows[1..]);
      assert KeyedMethods(t, rows)[1..] == KeyedMethods(t, rows[1..]);
    }
  }

  lemma {:induction false} KeyedIdRows(t: Table, ids: seq<nat>)
    ensures Rows(KeyedIds(t, ids)) == ids
  {
    if ids != [] {
      KeyedIdRows(t, ids[1..]);
      assert KeyedIds(t, ids)[1..] == KeyedIds(t, ids[1..]);
    }
  }

  function GroupWeight(t: Table, rows: seq<Member>, w: Member -> nat): nat -> nat {
    (id: nat) => Weight(Filter(rows, Named(t, id)), w)
  }

  lemma {:induction false} FlattenWeight(t: Table, rows: seq<Member>, ids: seq<nat>, w: Member -> nat)
    ensures Weight(Flatten(ids, OverloadsOf(t, rows)), w) == Weight(ids, GroupWeight(t, rows, w))
  {
    if ids != [] {
      FlattenWeight(t, rows, ids[1..], w);
      var group := Filter(rows, Named(t, ids[0]));
      WeightAppend(Overloads(t, rows, ids[0]), Flatten(ids[1..], OverloadsOf(t, rows)), w);
      SortWeight(KeyedMethods(t, group), w);
      KeyedRows(t, group);
    }
  }

  lemma {:induction false} WeightSame<T>(xs: seq<T>, v: T -> nat, w: T -> nat)
    requires forall x :: x in xs ==> v(x) == w(x)
    ensures Weight(xs, v) == Weight(xs, w)
  {
    if xs != [] {
      assert xs[0] in xs;
      WeightSame(xs[1..], v, w);
    }
  }

  /** One more member of one group. */
  lemma {:induction false} WeightBump(ids: seq<nat>, v: nat -> nat, w: nat -> nat, id: nat, d: nat)
    requires AllDistinct(ids) && id in ids && w(id) == v(id) + d
    requires forall other :: other in ids && other != id ==> w(other) == v(other)
    ensures Weight(ids, w) == Weight(ids, v) + d
  {
    assert ids == [ids[0]] + ids[1..];
    if ids[0] == id {
      forall other | other in ids[1..]
        ensures w(other) == v(other)
      {
        var k :| 0 <= k < |ids[1..]| && ids[1..][k] == other;
        assert ids[k + 1] == other && other in ids;
      }
      WeightSame(ids[1..], v, w);
    } else {
      assert ids[0] in ids;
      WeightBump(ids[1..], v, w, id, d);
    }
  }

  lemma GroupGrows(t: Table, init: seq<Member>, last: Member, w: Member -> nat, id: nat)
    ensures GroupWeight(t, init + [last], w)(id) == GroupWeight(t, init, w)(id) + if id == t.Id(last) then w(last) else 0
  {
    FilterAppend(init, [last], Named(t, id));
    FilterCons(last, [], Named(t, id));
    assert [last] + [] == [last] && |[last][1..]| == 0;
    WeightAppend(Filter(init, Named(t, id)), Filter([last], Named(t, id)), w);
  }

  lemma {:induction false} GroupsWeigh(t: Table, rows: seq<Member>, w: Member -> nat)
    ensures Weight(Ids(t, rows), GroupWeight(t, rows, w)) == Weight(rows, w)
  {
    if rows != [] {
      var init, last := rows[..|rows| - 1], rows[|rows| - 1];
      var id := t.Id(last);
      GroupsWeigh(t, init, w);
      IdsAreUsed(t, init);
      IdsAreUsed(t, rows);
      assert rows == init + [last];
      WeightAppend(init, [last], w);
      WeightOne(last, w);
      hide GroupWeight;
      hide Filter;
      hide Weight;
      forall other
        ensures GroupWeight(t, rows, w)(other) == GroupWeight(t, init, w)(other) + if other == id then w(last) else 0
      {
        GroupGrows(t, init, last, w, other);
      }
      if id in Ids(t, init) {
        WeightBump(Ids(t, init), GroupWeight(t, init, w), GroupWeight(t, rows, w), id, w(last));
      } else {
        NewGroupWeighs(t, init, last, w);
        WeightSame(Ids(t, init), GroupWeight(t, init, w), GroupWeight(t, rows, w));
        WeightAppend(Ids(t, init), [id], GroupWeight(t, rows, w));
        WeightOne(id, GroupWeight(t, rows, w));
      }
    }
  }

  lemma NewGroupWeighs(t: Table, init: seq<Member>, last: Member, w: Member -> nat)
    requires t.Id(last) !in Ids(t, init)
    ensures GroupWeight(t, init, w)(t.Id(last)) == 0
  {
    IdsAreUsed(t, init);
    FilterNothing(init, Named(t, t.Id(last)));
  }

  /** Every sum over the methods of a class is the same in either order. */
  lemma OrderedWeighs(t: Table, rows: seq<Member>, w: Member -> nat)
    ensures Weight(Ordered(t, rows), w) == Weight(rows, w)
  {
    FlattenWeight(t, rows, SortedIds(t, rows), w);
    SortWeight(KeyedIds(t, Ids(t, rows)), GroupWeight(t, rows, w));
    KeyedIdRows(t, Ids(t, rows));
    GroupsWeigh(t, rows, w);
  }

  // ----- Lists of lists -----

  function MapRows<T, U>(xs: seq<Keyed<T>>, f: T -> U): seq<Keyed<U>> {
    if xs == [] then [] else [Keyed(xs[0].key, f(xs[0].row))] + MapRows(xs[1..], f)
  }

  lemma {:induction false} MapAppend<T, U>(xs: seq<Keyed<T>>, ys: seq<Keyed<T>>, f: T -> U)
    ensures MapRows(xs + ys, f) == MapRows(xs, f) + MapRows(ys, f)
  {
    if xs == [] {
      assert xs + ys == ys;
    } else {
      assert (xs + ys)[1..] == xs[1..] + ys;
      MapAppend(xs[1..], ys, f);
    }
  }

  lemma {:induction false} InsertMap<T, U>(x: Keyed<T>, xs: seq<Keyed<T>>, f: T -> U)
    ensures MapRows(Insert(x, xs), f) == Insert(Keyed(x.key, f(x.row)), MapRows(xs, f))
  {
    hide Less;
    if xs == [] || !Less(xs[0].key, x.key) {
      assert ([x] + xs)[1..] == xs;
    } else {
      InsertMap(x, xs[1..], f);
      assert ([xs[0]] + Insert(x, xs[1..]))[1..] == Insert(x, xs[1..]);
      assert MapRows(xs, f)[1..] == MapRows(xs[1..], f);
    }
  }

  lemma {:induction false} SortMap<T, U>(xs: seq<Keyed<T>>, f: T -> U)
    ensures Sort(MapRows(xs, f)) == MapRows(Sort(xs), f)
  {
    if xs != [] {
      SortMap(xs[1..], f);
      InsertMap(xs[0], Sort(xs[1..]), f);
      assert MapRows(xs, f)[1..] == MapRows(xs[1..], f);
    }
  }

  function Then<T, U, V>(f: T -> U, g: U -> V): T -> V {
    x => g(f(x))
  }

  lemma {:induction false} FlattenMapped<T, U, V>(xs: seq<Keyed<T>>, f: T -> U, g: U -> seq<V>)
    ensures Flatten(Rows(MapRows(xs, f)), g) == Flatten(Rows(xs), Then(f, g))
  {
    if xs != [] {
      FlattenMapped(xs[1..], f, g);
      assert MapRows(xs, f)[1..] == MapRows(xs[1..], f);
      assert Rows(MapRows(xs, f))[1..] == Rows(MapRows(xs[1..], f));
      assert Rows(xs)[1..] == Rows(xs[1..]);
    }
  }

  function Inner<T, U, V>(f: T -> seq<U>, g: U -> seq<V>): T -> seq<V> {
    x => Flatten(f(x), g)
  }

  lemma {:induction false} FlattenTwice<T, U, V>(xs: seq<T>, f: T -> seq<U>, g: U -> seq<V>)
    ensures Flatten(Flatten(xs, f), g) == Flatten(xs, Inner(f, g))
  {
    if xs != [] {
      FlattenTwice(xs[1..], f, g);
      FlattenAppend(f(xs[0]), Flatten(xs[1..], f), g);
    }
  }

  lemma {:induction false} FlattenSame<T, U>(xs: seq<T>, f: T -> seq<U>, g: T -> seq<U>)
    requires forall x :: x in xs ==> f(x) == g(x)
    ensures Flatten(xs, f) == Flatten(xs, g)
  {
    if xs != [] {
      assert xs[0] in xs;
      FlattenSame(xs[1..], f, g);
    }
  }

  function WeightIn<T, U>(f: T -> seq<U>, w: U -> nat): T -> nat {
    x => Weight(f(x), w)
  }

  lemma {:induction false} WeightFlatten<T, U>(xs: seq<T>, f: T -> seq<U>, w: U -> nat)
    ensures Weight(Flatten(xs, f), w) == Weight(xs, WeightIn(f, w))
  {
    if xs != [] {
      WeightFlatten(xs[1..], f, w);
      WeightAppend(f(xs[0]), Flatten(xs[1..], f), w);
    }
  }

  function One<T>(): T -> nat {
    x => 1
  }

  lemma {:induction false} WeightOfOnes<T>(xs: seq<T>)
    ensures Weight(xs, One<T>()) == |xs|
  {
    if xs != [] {
      WeightOfOnes(xs[1..]);
    }
  }

  function Indicator(m: Member): Member -> nat {
    (x: Member) => if x == m then 1 else 0
  }

  lemma {:induction false} IndicatorWeight(rows: seq<Member>, m: Member)
    ensures Weight(rows, Indicator(m)) > 0 <==> m in rows
  {
    if rows != [] {
      assert rows == [rows[0]] + rows[1..];
      IndicatorWeight(rows[1..], m);
    }
  }

  /** Ordering changes no membership. */
  lemma OrderedMember(t: Table, rows: seq<Member>, m: Member)
    ensures m in Ordered(t, rows) <==> m in rows
  {
    OrderedWeighs(t, rows, Indicator(m));
    IndicatorWeight(Ordered(t, rows), m);
    IndicatorWeight(rows, m);
  }

  lemma OverloadMember(t: Table, rows: seq<Member>, id: nat, m: Member)
    ensures m in Overloads(t, rows, id) <==> m in rows && t.Id(m) == id
  {
    var group := Filter(rows, Named(t, id));
    SortWeight(KeyedMethods(t, group), Indicator(m));
    KeyedRows(t, group);
    IndicatorWeight(Overloads(t, rows, id), m);
    IndicatorWeight(group, m);
    FilterMember(rows, Named(t, id), m);
  }

  // ----- Ordering orders -----

  /** By the text of the name, and by prototype among the methods of one name index. */
  predicate InOrder(t: Table, x: Member, y: Member) {
    && !Less(t.NameKey(t.Id(y)), t.NameKey(t.Id(x)))
    && (t.Id(x) == t.Id(y) ==> !Less(t.prototype(y.index), t.prototype(x.index)))
  }

  ghost predicate AllInOrder(t: Table, rows: seq<Member>) {
    forall i, j :: 0 <= i < j < |rows| ==> InOrder(t, rows[i], rows[j])
  }

  lemma {:induction false} KeyedMethodsAt(t: Table, rows: seq<Member>)
    ensures forall x :: x in KeyedMethods(t, rows) ==> x.key == t.prototype(x.row.index)
  {
    if rows != [] {
      KeyedMethodsAt(t, rows[1..]);
    }
  }

  lemma {:induction false} RowsAt<T>(xs: seq<Keyed<T>>)
    ensures |Rows(xs)| == |xs| && forall i :: 0 <= i < |xs| ==> Rows(xs)[i] == xs[i].row
  {
    if xs != [] {
      RowsAt(xs[1..]);
    }
  }

  /** The methods of one name, by prototype. */
  lemma OverloadsInOrder(t: Table, rows: seq<Member>, id: nat)
    ensures AllInOrder(t, Overloads(t, rows, id))
  {
    var keyed := KeyedMethods(t, Filter(rows, Named(t, id)));
    var sorted := Sort(keyed);
    SortSorts(keyed);
    KeyedMethodsAt(t, Filter(rows, Named(t, id)));
    RowsAt(sorted);
    forall i | 0 <= i < |sorted|
      ensures sorted[i].key == t.prototype(sorted[i].row.index) && t.Id(sorted[i].row) == id
    {
      assert sorted[i] in multiset(sorted);
      assert sorted[i] in keyed && Overloads(t, rows, id)[i] in Overloads(t, rows, id);
      OverloadMember(t, rows, id, sorted[i].row);
    }
    LessTotal(t.NameKey(id), t.NameKey(id));
  }

  /** The names in use, each once, by their text. */
  lemma SortedIdsInOrder(t: Table, rows: seq<Member>)
    ensures var ids := SortedIds(t, rows);
            forall u, v :: 0 <= u < v < |ids| ==> !Less(t.NameKey(ids[v]), t.NameKey(ids[u])) && ids[u] != ids[v]
  {
    var keyed := KeyedIds(t, Ids(t, rows));
    var sorted := Sort(keyed);
    SortSorts(keyed);
    RowsAt(sorted);
    IdsAreUsed(t, rows);
    forall u, v | 0 <= u < v < |keyed|
      ensures keyed[u] != keyed[v]
    {
      assert keyed[u].row == Ids(t, rows)[u] && keyed[v].row == Ids(t, rows)[v];
    }
    DistinctPart(keyed, sorted);
    hide Ids;
    hide Sort;
    forall u | 0 <= u < |sorted|
      ensures sorted[u].key == t.NameKey(sorted[u].row)
    {
      assert sorted[u] in multiset(sorted);
      assert sorted[u] in keyed;
    }
  }

  lemma {:induction false} FlattenInOrder(t: Table, rows: seq<Member>, ids: seq<nat>)
    requires forall u, v :: 0 <= u < v < |ids| ==> !Less(t.NameKey(ids[v]), t.NameKey(ids[u])) && ids[u] != ids[v]
    ensures AllInOrder(t, Flatten(ids, OverloadsOf(t, rows)))
    ensures forall m :: m in Flatten(ids, OverloadsOf(t, rows)) ==> t.Id(m) in ids
  {
    hide Less;
    hide Overloads;
    if ids != [] {
      var first, rest := Overloads(t, rows, ids[0]), Flatten(ids[1..], OverloadsOf(t, rows));
      FlattenInOrder(t, rows, ids[1..]);
      OverloadsInOrder(t, rows, ids[0]);
      forall m | m in first ensures t.Id(m) == ids[0] {
        OverloadMember(t, rows, ids[0], m);
      }
      forall m, k | m in first && k in rest ensures InOrder(t, m, k) {
        var v :| 0 <= v < |ids[1..]| && ids[1..][v] == t.Id(k);
        assert ids[v + 1] == t.Id(k);
      }
      JoinInOrder(t, first, rest);
    }
  }

  lemma JoinInOrder(t: Table, xs: seq<Member>, ys: seq<Member>)
    requires AllInOrder(t, xs) && AllInOrder(t, ys)
    requires forall x, y :: x in xs && y in ys ==> InOrder(t, x, y)
    ensures AllInOrder(t, xs + ys)
  {
    hide InOrder;
    var all := xs + ys;
    forall i, j | 0 <= i < j < |all| ensures InOrder(t, all[i], all[j]) {
      if i < |xs| <= j {
        assert all[i] in xs && all[j] in ys;
      }
    }
  }

  /** The listed order: every method as often as it was given, by name and then by prototype. */
  lemma OrderedIsSorted(t: Table, rows: seq<Member>)
    ensures multiset(Ordered(t, rows)) == multiset(rows)
    ensures AllInOrder(t, Ordered(t, rows))
  {
    forall m ensures multiset(Ordered(t, rows))[m] == multiset(rows)[m] {
      OrderedWeighs(t, rows, Indicator(m));
      IndicatorCounts(Ordered(t, rows), m);
      IndicatorCounts(rows, m);
    }
    SortedIdsInOrder(t, rows);
    FlattenInOrder(t, rows, SortedIds(t, rows));
  }

  lemma {:induction false} IndicatorCounts(rows: seq<Member>, m: Member)
    ensures Weight(rows, Indicator(m)) == multiset(rows)[m]
  {
    if rows != [] {
      assert rows == [rows[0]] + rows[1..];
      IndicatorCounts(rows[1..], m);
    }
  }

  // ----- Sorted rows -----

  lemma RowsMember<T>(xs: seq<Keyed<T>>, ys: seq<Keyed<T>>, row: T)
    requires multiset(xs) == multiset(ys)
    ensures row in Rows(xs) <==> row in Rows(ys)
  {
    RowsAt(xs);
    RowsAt(ys);
    if row in Rows(xs) {
      var x := RowOf(xs, row);
      assert x in multiset(ys);
      var i :| 0 <= i < |ys| && ys[i] == x;
      assert Rows(ys)[i] == row;
    }
    if row in Rows(ys) {
      var y := RowOf(ys, row);
      assert y in multiset(xs);
      var i :| 0 <= i < |xs| && xs[i] == y;
      assert Rows(xs)[i] == row;
    }
  }
}
