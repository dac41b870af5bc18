/** When the order in which a source hands over adjacencies shows in a traversal, and when it does not. */
module CallGraphOrders {
  import opened Bytes
  import opened Sorting
  import opened MethodSelection
  import opened CallGraph
  import opened CallGraphTruth

  // ---------------------------------------------------------------------------------------
  // Only what has not been taken matters
  // ---------------------------------------------------------------------------------------

  function NotIn(edges: seq<nat>): nat -> bool {
    (id: nat) => id !in edges
  }

  /** The call sites that have not been taken, in their order. */
  function Untaken(ids: seq<nat>, edges: seq<nat>): seq<nat> {
    Filter(ids, NotIn(edges))
  }

  lemma UntakenStep(ids: seq<nat>, edges: seq<nat>)
    requires ids != [] && NoRepeats(ids)
    ensures Untaken(ids, edges) == (if ids[0] in edges then [] else [ids[0]]) + Untaken(ids[1..], edges)
    ensures Untaken(ids[1..], edges + [ids[0]]) == Untaken(ids[1..], edges)
  {
    UntakenAlike(ids[1..], edges, edges + [ids[0]]);
  }

  lemma {:induction false} UntakenAlike(ids: seq<nat>, a: seq<nat>, b: seq<nat>)
    requires forall i :: 0 <= i < |ids| ==> (ids[i] in a <==> ids[i] in b)
    ensures Untaken(ids, a) == Untaken(ids, b)
  {
    if ids != [] {
      UntakenAlike(ids[1..], a, b);
    }
  }

  lemma {:induction false} UntakenMeans(ids: seq<nat>, edges: seq<nat>)
    requires NoRepeats(ids)
    ensures NoRepeats(Untaken(ids, edges))
    ensures forall id :: id in Untaken(ids, edges) <==> id in ids && id !in edges
  {
    forall id ensures id in Untaken(ids, edges) <==> id in ids && id !in edges {
      FilterMember(ids, NotIn(edges), id);
    }
    if ids != [] {
      UntakenMeans(ids[1..], edges);
      assert ids[0] !in ids[1..];
      UntakenStep(ids, edges);
    }
  }

  /** A column goes by what has not been taken. */
  lemma {:induction false} ColumnUntaken(g: Graph, q: Query, st: State, distance: nat, column: Column, ids: seq<nat>)
    requires NoRepeats(ids) && forall i :: 0 <= i < |ids| ==> ids[i] < |g.sites|
    ensures forall i :: 0 <= i < |Untaken(ids, st.edges)| ==> Untaken(ids, st.edges)[i] < |g.sites|
    ensures VisitColumn(g, q, st, distance, column, ids) ==
            VisitColumn(g, q, st, distance, column, Untaken(ids, st.edges))
    decreases |ids|
  {
    UntakenInside(g, ids, st.edges);
    if ids != [] {
      hide Untaken, Size;
      UntakenStep(ids, st.edges);
      UntakenInside(g, ids[1..], st.edges);
      var rest := Untaken(ids[1..], st.edges);
      if ids[0] in st.edges {
        assert [] + rest == rest;
        ColumnUntaken(g, q, st, distance, column, ids[1..]);
      } else {
        assert ([ids[0]] + rest)[1..] == rest;
        if Judge(g, q, st, distance, column, ids[0]) == Accepted {
          ColumnUntaken(g, q, Take(g, q, st, distance, column, ids[0]), distance, column, ids[1..]);
        }
      }
    }
  }

  lemma UntakenInside(g: Graph, ids: seq<nat>, edges: seq<nat>)
    requires forall i :: 0 <= i < |ids| ==> ids[i] < |g.sites|
    ensures forall i :: 0 <= i < |Untaken(ids, edges)| ==> Untaken(ids, edges)[i] < |g.sites|
  {
    forall i | 0 <= i < |Untaken(ids, edges)| ensures Untaken(ids, edges)[i] < |g.sites| {
      FilterMember(ids, NotIn(edges), Untaken(ids, edges)[i]);
    }
  }

  /** Below the depth, call sites that have not been taken are taken one after the other until a
      budget refuses one. */
  lemma {:induction false} ColumnTakes(g: Graph, q: Query, st: State, distance: nat, column: Column, ids: seq<nat>)
    returns (count: nat)
    requires distance != q.depth && !st.stopped && NoRepeats(ids)
    requires forall i :: 0 <= i < |ids| ==> ids[i] < |g.sites| && ids[i] !in st.edges
    ensures var (after, flow) := VisitColumn(g, q, st, distance, column, ids);
            && count <= |ids| && after.edges == st.edges + ids[..count]
            && flow != Boundary && (flow == Stop <==> after.stopped) && (flow == Stop <==> count < |ids|)
    decreases |ids|
  {
    count := 0;
    if ids == [] {
      assert st.edges + [] == st.edges;
    } else {
      EdgeTakes(g, q, st, distance, column, ids[0]);
      hide VisitEdge, NoRepeats;
      var (mid, flow) := VisitEdge(g, q, st, distance, column, ids[0]);
      if flow == Next {
        RestUntaken(ids, st.edges);
        count := ColumnTakes(g, q, mid, distance, column, ids[1..]);
        OneMoreTaken(st.edges, ids, count);
        count := count + 1;
      } else {
        assert st.edges + ids[..0] == st.edges;
      }
    }
  }

  /** One call site that has not been taken, below the depth. */
  lemma EdgeTakes(g: Graph, q: Query, st: State, distance: nat, column: Column, id: nat)
    requires id < |g.sites| && distance != q.depth && id !in st.edges && !st.stopped
    ensures var (after, flow) := VisitEdge(g, q, st, distance, column, id);
            && flow != Boundary && (flow == Stop <==> after.stopped)
            && after.edges == if flow == Next then st.edges + [id] else st.edges
  {
    hide Size;
  }

  lemma RestUntaken(ids: seq<nat>, edges: seq<nat>)
    requires ids != [] && NoRepeats(ids) && forall i :: 0 <= i < |ids| ==> ids[i] !in edges
    ensures NoRepeats(ids[1..]) && forall i :: 0 <= i < |ids[1..]| ==> ids[1..][i] !in edges + [ids[0]]
  {
  }

  lemma OneMoreTaken(edges: seq<nat>, ids: seq<nat>, count: nat)
    requires ids != [] && count < |ids|
    ensures edges + [ids[0]] + ids[1..][..count] == edges + ids[..count + 1]
  {
    assert ids[..count + 1] == [ids[0]] + ids[1..][..count];
  }

  // ---------------------------------------------------------------------------------------
  // At the depth
  // ---------------------------------------------------------------------------------------

  /** At the depth it only matters whether anything has not been taken. */
  lemma {:induction false} ColumnLooks(g: Graph, q: Query, st: State, column: Column, ids: seq<nat>)
    requires forall i :: 0 <= i < |ids| ==> ids[i] < |g.sites|
    ensures VisitColumn(g, q, st, q.depth, column, ids) ==
            if AllSeen(ids, st.edges) then (st, Next) else (st.(reasons := st.reasons + {Depth}), Boundary)
    decreases |ids|
  {
    if ids != [] && ids[0] in st.edges {
      ColumnLooks(g, q, st, column, ids[1..]);
      assert ids == [ids[0]] + ids[1..];
    }
  }

  lemma {:induction false} ColumnsLook(g: Graph, q: Query, st: State, m: Method, columns: seq<Column>, a: Shown, b: Shown,
                                       boundary: bool)
    requires Followed(q, columns) && Fair(g, q, m, a) && Fair(g, q, m, b)
    requires NoRepeats(st.edges) && |st.edges| <= q.maxEdges
    ensures VisitColumns(g, q, st, q.depth, columns, a, boundary) == VisitColumns(g, q, st, q.depth, columns, b, boundary)
    decreases |columns|
  {
    hide FairIn, AllSeen, VisitColumn, NoRepeats, Query.Columns;
    if columns != [] {
      CutHidesNothing(g, q, st.edges, columns[0], m, a.In(columns[0]));
      CutHidesNothing(g, q, st.edges, columns[0], m, b.In(columns[0]));
      ColumnLooks(g, q, st, columns[0], a.In(columns[0]));
      ColumnLooks(g, q, st, columns[0], b.In(columns[0]));
      var (after, flow) := VisitColumn(g, q, st, q.depth, columns[0], a.In(columns[0]));
      ColumnsLook(g, q, after, m, columns[1..], a, b, boundary || flow == Boundary);
    }
  }

  /** A node at the depth is visited alike, whatever the order. */
  lemma ExpandAtDepth(g: Graph, q: Query, st: State, head: nat, a: Shown, b: Shown)
    requires Run(g, q, st, head) && head < |st.order| && !st.stopped && st.DepthOf(st.order[head]) == q.depth
    requires Fair(g, q, st.order[head], a) && Fair(g, q, st.order[head], b)
    ensures st.order[head] in st.nodes && Expand(g, q, st, head, a) == Expand(g, q, st, head, b)
  {
    hide FairIn, VisitColumns, NoRepeats, Exact, Closed, Layered, StatusesRight, ReasonsRight, BoundariesAtDepth, Anchored;
    SoundDepth(g, q, st, head);
    ColumnsLook(g, q, st, st.order[head], q.Columns(), a, b, false);
  }

  // ---------------------------------------------------------------------------------------
  // The same ends
  // ---------------------------------------------------------------------------------------

  /** Only the ends the query follows matter. */
  lemma {:induction false} ColumnsAgree(g: Graph, q: Query, st: State, distance: nat, columns: seq<Column>, a: Shown, b: Shown,
                                        boundary: bool)
    requires Inside(g, a) && Inside(g, b) && forall i :: 0 <= i < |columns| ==> a.In(columns[i]) == b.In(columns[i])
    ensures VisitColumns(g, q, st, distance, columns, a, boundary) == VisitColumns(g, q, st, distance, columns, b, boundary)
    decreases |columns|
  {
    hide VisitColumn;
    if columns != [] {
      var (after, flow) := VisitColumn(g, q, st, distance, columns[0], a.In(columns[0]));
      assert forall i :: 0 <= i < |columns[1..]| ==> columns[1..][i] == columns[i + 1];
      ColumnsAgree(g, q, after, distance, columns[1..], a, b, boundary || flow == Boundary);
    }
  }

  lemma ExpandAgrees(g: Graph, q: Query, st: State, head: nat, a: Shown, b: Shown)
    requires head < |st.order| && st.order[head] in st.nodes && Inside(g, a) && Inside(g, b)
    requires forall column :: column in q.Columns() ==> a.In(column) == b.In(column)
    ensures Expand(g, q, st, head, a) == Expand(g, q, st, head, b)
  {
    hide VisitColumns, Inside;
    ColumnsAgree(g, q, st, st.nodes[st.order[head]].depth, q.Columns(), a, b, false);
  }

  // ---------------------------------------------------------------------------------------
  // Below the depth
  // ---------------------------------------------------------------------------------------

  /** A column that is not stopped below the depth takes everything it shows. */
  lemma ColumnTakesAll(g: Graph, q: Query, st: State, distance: nat, column: Column, ids: seq<nat>)
    requires distance != q.depth && !st.stopped && NoRepeats(ids) && forall i :: 0 <= i < |ids| ==> ids[i] < |g.sites|
    ensures var (after, flow) := VisitColumn(g, q, st, distance, column, ids);
            && st.edges <= after.edges && flow != Boundary && (flow == Stop <==> after.stopped)
            && (!after.stopped ==> after.edges == st.edges + Untaken(ids, st.edges) && AllSeen(ids, after.edges))
            && (after.stopped ==> |after.edges| < |st.edges| + |Untaken(ids, st.edges)|)
            && forall id :: id in after.edges ==> id in st.edges || id in ids
  {
    ColumnUntaken(g, q, st, distance, column, ids);
    UntakenMeans(ids, st.edges);
    hide Untaken, VisitColumn, NoRepeats;
    var untaken := Untaken(ids, st.edges);
    var count := ColumnTakes(g, q, st, distance, column, untaken);
    var after := VisitColumn(g, q, st, distance, column, ids).0;
    assert untaken[..|untaken|] == untaken;
    forall i | 0 <= i < |ids| && !after.stopped ensures ids[i] in after.edges {
      assert ids[i] in ids;
      assert ids[i] in st.edges || ids[i] in untaken;
    }
    forall id | id in after.edges ensures id in st.edges || id in ids {
      assert id in st.edges || id in untaken[..count];
      assert id in untaken[..count] ==> id in untaken;
    }
  }

  /** Two orders of the same call sites: when both lead into one list of edges, which the second
      makes up when it is stopped, they take the same call sites in the same order. */
  lemma ColumnForced(g: Graph, q: Query, st: State, distance: nat, column: Column, a: seq<nat>, b: seq<nat>, all: seq<nat>)
    requires distance != q.depth && !st.stopped && NoRepeats(a) && NoRepeats(b) && forall id :: id in a <==> id in b
    requires forall i :: 0 <= i < |a| ==> a[i] < |g.sites|
    requires forall i :: 0 <= i < |b| ==> b[i] < |g.sites|
    requires var after := VisitColumn(g, q, st, distance, column, a).0; !after.stopped && after.edges <= all
    requires var after := VisitColumn(g, q, st, distance, column, b).0; after.edges <= all && (after.stopped ==> after.edges == all)
    ensures Untaken(a, st.edges) == Untaken(b, st.edges)
  {
    ColumnTakesAll(g, q, st, distance, column, a);
    ColumnTakesAll(g, q, st, distance, column, b);
    UntakenMeans(a, st.edges);
    UntakenMeans(b, st.edges);
    hide Untaken, VisitColumn, NoRepeats;
    var first, second := Untaken(a, st.edges), Untaken(b, st.edges);
    FewerThanTheirCover(first, second);
    FewerThanTheirCover(second, first);
    SamePart(st.edges, first, second, all);
  }

  lemma SamePart(front: seq<nat>, a: seq<nat>, b: seq<nat>, all: seq<nat>)
    requires |a| == |b|
    ensures front + a <= all && front + b <= all ==> a == b
  {
    if front + a <= all && front + b <= all {
      forall i | 0 <= i < |a| ensures a[i] == b[i] {
        assert (front + a)[|front| + i] == all[|front| + i] == (front + b)[|front| + i];
      }
    }
  }

  // ---------------------------------------------------------------------------------------
  // Which call sites have been taken when a node is
  // ---------------------------------------------------------------------------------------

  ghost predicate TouchedBy(g: Graph, q: Query, order: seq<Method>, head: nat, id: nat) {
    id < |g.sites| && exists column, i :: column in q.Columns() && 0 <= i < head && i < |order| && End(g, column, id) == order[i]
  }

  /** Every edge was shown by a node taken before. */
  ghost predicate Touched(g: Graph, q: Query, st: State, head: nat) {
    forall id :: id in st.edges ==> TouchedBy(g, q, st.order, head, id)
  }

  lemma {:induction false} ColumnShows(g: Graph, q: Query, st: State, distance: nat, column: Column, ids: seq<nat>)
    requires forall i :: 0 <= i < |ids| ==> ids[i] < |g.sites|
    ensures forall id :: id in VisitColumn(g, q, st, distance, column, ids).0.edges ==> id in st.edges || id in ids
    decreases |ids|
  {
    hide Judge, Size;
    if ids != [] {
      assert ids == [ids[0]] + ids[1..];
      ColumnShows(g, q, VisitEdge(g, q, st, distance, column, ids[0]).0, distance, column, ids[1..]);
    }
  }

  lemma {:induction false} ColumnsShow(g: Graph, q: Query, st: State, distance: nat, columns: seq<Column>, shown: Shown,
                                       boundary: bool)
    requires Inside(g, shown)
    ensures forall id :: id in VisitColumns(g, q, st, distance, columns, shown, boundary).0.edges ==>
              id in st.edges || exists i :: 0 <= i < |columns| && id in shown.In(columns[i])
    decreases |columns|
  {
    hide VisitColumn;
    if columns != [] {
      ColumnShows(g, q, st, distance, columns[0], shown.In(columns[0]));
      var (after, flow) := VisitColumn(g, q, st, distance, columns[0], shown.In(columns[0]));
      if flow != Stop {
        ColumnsShow(g, q, after, distance, columns[1..], shown, boundary || flow == Boundary);
        forall i | 0 <= i < |columns[1..]| ensures columns[1..][i] == columns[i + 1] {
        }
      }
    }
  }

  lemma StartTouched(g: Graph, q: Query)
    requires Start(g, q).Some?
    ensures Touched(g, q, Start(g, q).value, 0)
  {
  }

  /** The edges of a node that is taken are among those it shows. */
  lemma ExpandTouched(g: Graph, q: Query, st: State, head: nat, shown: Shown)
    requires head < |st.order| && st.order[head] in st.nodes && Fair(g, q, st.order[head], shown)
    requires Touched(g, q, st, head)
    ensures Touched(g, q, Expand(g, q, st, head, shown), head + 1)
  {
    hide VisitColumns, NoRepeats, Query.Columns;
    var m := st.order[head];
    ColumnsShow(g, q, st, st.nodes[m].depth, q.Columns(), shown, false);
    ExpandKeepsOrder(g, q, st, head, shown);
    var after := Expand(g, q, st, head, shown);
    forall id | id in after.edges ensures TouchedBy(g, q, after.order, head + 1, id) {
      if id in st.edges {
        TouchedLater(g, q, st.order, after.order, head, id);
      } else {
        var i :| 0 <= i < |q.Columns()| && id in shown.In(q.Columns()[i]);
        var column := q.Columns()[i];
        assert FairIn(g, q, column, m, shown.In(column));
        var k :| 0 <= k < |shown.In(column)| && shown.In(column)[k] == id;
        assert Touches(g, q, column, id, m) && after.order[head] == m;
      }
    }
  }

  lemma TouchedLater(g: Graph, q: Query, order: seq<Method>, after: seq<Method>, head: nat, id: nat)
    requires TouchedBy(g, q, order, head, id) && order <= after
    ensures TouchedBy(g, q, after, head + 1, id)
  {
    var column, i :| column in q.Columns() && 0 <= i < head && i < |order| && End(g, column, id) == order[i];
    assert End(g, column, id) == after[i];
  }

  /** The calls made to a method that may show: when calls are followed both ways, only those by
      methods that have not been taken, since the others' calls have been. */
  function Late(q: Query, taken: seq<Method>, m: Method): Site -> bool {
    (site: Site) => site.callee == m && (Source in q.Columns() ==> site.caller !in taken)
  }

  function OfSite(g: Graph, p: Site -> bool): nat -> bool {
    (id: nat) => id < |g.sites| && p(g.sites[id])
  }

  function Pick(g: Graph, ids: seq<nat>, p: Site -> bool): seq<nat> {
    Filter<nat>(ids, OfSite(g, p))
  }

  /** A node that is taken below the depth, once the calls it makes have been. */
  ghost predicate Called(g: Graph, q: Query, st: State, head: nat, mid: State, shown: Shown) {
    && Run(g, q, st, head) && Touched(g, q, st, head) && head < |st.order| && !st.stopped
    && st.DepthOf(st.order[head]) < q.depth && Fair(g, q, st.order[head], shown)
    && mid == AfterCalls(g, q, st, st.DepthOf(st.order[head]), shown) && !mid.stopped
    && NoRepeats(mid.edges) && |mid.edges| <= q.maxEdges
  }

  function AfterCalls(g: Graph, q: Query, st: State, distance: nat, shown: Shown): State
    requires Inside(g, shown)
  {
    if Source in q.Columns() then VisitColumn(g, q, st, distance, Source, shown.source).0 else st
  }

  /** A call to the node has been taken exactly when calls are followed both ways and its caller has
      been taken, before or now. */
  lemma TakenExactly(g: Graph, q: Query, st: State, head: nat, mid: State, shown: Shown, id: nat)
    requires Called(g, q, st, head, mid, shown) && Touches(g, q, Target, id, st.order[head])
    ensures id in mid.edges <==> !Late(q, st.order[..head + 1], st.order[head])(g.sites[id])
  {
    hide Run, Fair, Query.Columns, VisitColumn, NoRepeats, FairIn, Touched, TouchedBy;
    var m, caller := st.order[head], g.sites[id].caller;
    if id in mid.edges {
      TakenByCaller(g, q, st, head, mid, shown, id);
    } else if Source in q.Columns() && caller in st.order[..head + 1] {
      CallerTakes(g, q, st, head, mid, shown, id);
    }
  }

  lemma TakenByCaller(g: Graph, q: Query, st: State, head: nat, mid: State, shown: Shown, id: nat)
    requires Called(g, q, st, head, mid, shown) && Touches(g, q, Target, id, st.order[head]) && id in mid.edges
    ensures Source in q.Columns() && g.sites[id].caller in st.order[..head + 1]
  {
    hide Query.Columns, VisitColumn, Exact, Closed, Layered, StatusesRight, ReasonsRight, BoundariesAtDepth, AllAnchored;
    var m := st.order[head];
    if id in st.edges {
      assert TouchedBy(g, q, st.order, head, id);
      var column, i :| column in q.Columns() && 0 <= i < head && i < |st.order| && End(g, column, id) == st.order[i];
      assert column == Source;
      assert st.order[..head + 1][i] == g.sites[id].caller;
    } else {
      ColumnShows(g, q, st, st.DepthOf(m), Source, shown.source);
      assert FairIn(g, q, Source, m, shown.In(Source));
      var k :| 0 <= k < |shown.source| && shown.source[k] == id;
      assert Touches(g, q, Source, id, m) && st.order[..head + 1][head] == m;
    }
  }

  lemma CallerTakes(g: Graph, q: Query, st: State, head: nat, mid: State, shown: Shown, id: nat)
    requires Called(g, q, st, head, mid, shown) && Touches(g, q, Target, id, st.order[head])
    requires Source in q.Columns() && g.sites[id].caller in st.order[..head + 1]
    ensures id in mid.edges
  {
    hide Query.Columns, VisitColumn, Exact, StatusesRight, ReasonsRight, BoundariesAtDepth, AllAnchored, Touched, Untaken;
    var m := st.order[head];
    assert FairIn(g, q, Source, m, shown.In(Source));
    ColumnTakesAll(g, q, st, st.DepthOf(m), Source, shown.source);
    var i :| 0 <= i < head + 1 && st.order[..head + 1][i] == g.sites[id].caller;
    assert Touches(g, q, Source, id, st.order[i]);
    if i < head {
      assert Covered(g, q, st.edges, st.order[i]);
      assert id in st.edges;
    } else {
      CutHidesNothing(g, q, mid.edges, Source, m, shown.source);
    }
  }

  /** What has not been taken of the calls to a node. */
  lemma UntakenIsLate(g: Graph, q: Query, st: State, head: nat, mid: State, shown: Shown, ids: seq<nat>)
    requires Called(g, q, st, head, mid, shown)
    requires forall i :: 0 <= i < |ids| ==> Touches(g, q, Target, ids[i], st.order[head])
    ensures Untaken(ids, mid.edges) == Pick(g, ids, Late(q, st.order[..head + 1], st.order[head]))
  {
    var late := Late(q, st.order[..head + 1], st.order[head]);
    hide Late, Called;
    forall id | id in ids ensures NotIn(mid.edges)(id) == OfSite(g, late)(id) {
      var i :| 0 <= i < |ids| && ids[i] == id;
      assert Touches(g, q, Target, ids[i], st.order[head]);
      TakenExactly(g, q, st, head, mid, shown, id);
    }
    FilterSame(ids, NotIn(mid.edges), OfSite(g, late));
  }

  // ---------------------------------------------------------------------------------------
  // One node
  // ---------------------------------------------------------------------------------------

  /** What a node below the depth takes: the calls it makes, and then those made to it. */
  function AfterNode(g: Graph, q: Query, st: State, distance: nat, shown: Shown): State
    requires Inside(g, shown)
  {
    var mid := AfterCalls(g, q, st, distance, shown);
    if Target in q.Columns() && !mid.stopped then VisitColumn(g, q, mid, distance, Target, shown.target).0 else mid
  }

  lemma ExpandIsAfterNode(g: Graph, q: Query, st: State, head: nat, shown: Shown)
    requires Run(g, q, st, head) && head < |st.order| && !st.stopped && Fair(g, q, st.order[head], shown)
    requires st.DepthOf(st.order[head]) < q.depth
    ensures st.order[head] in st.nodes && Inside(g, shown)
    ensures var after := AfterNode(g, q, st, st.DepthOf(st.order[head]), shown);
            Expand(g, q, st, head, shown) ==
            WithStatus(after, st.order[head], if after.stopped then BudgetBoundary else Expanded)
  {
    var m := st.order[head];
    SoundDepth(g, q, st, if st.stopped then head - 1 else head);
    ColumnsBelowDepth(g, q, st, m, st.DepthOf(m), q.Columns(), shown);
    hide Run, FairIn, VisitColumn, BelowDepth;
    AfterNodeIsColumns(g, q, st, st.DepthOf(m), shown);
  }

  lemma OneColumn(g: Graph, q: Query, st: State, distance: nat, column: Column, shown: Shown, boundary: bool)
    requires Inside(g, shown)
    ensures VisitColumns(g, q, st, distance, [column], shown, boundary).0 ==
            VisitColumn(g, q, st, distance, column, shown.In(column)).0
  {
    hide VisitColumn;
    assert [column][1..] == [];
  }

  lemma AfterNodeIsColumns(g: Graph, q: Query, st: State, distance: nat, shown: Shown)
    requires Inside(g, shown) && !st.stopped
    ensures VisitColumns(g, q, st, distance, q.Columns(), shown, false).0 == AfterNode(g, q, st, distance, shown)
  {
    hide VisitColumn;
    var (mid, flow) := VisitColumn(g, q, st, distance, Source, shown.source);
    StopIsStopped(g, q, st, distance, Source, shown.source);
    OneColumn(g, q, st, distance, Source, shown, false);
    OneColumn(g, q, st, distance, Target, shown, false);
    OneColumn(g, q, mid, distance, Target, shown, flow == Boundary);
    assert [Source, Target][1..] == [Target];
  }

  lemma PrefixKeeps(edges: seq<nat>, all: seq<nat>)
    requires edges <= all && NoRepeats(all)
    ensures NoRepeats(edges) && |edges| <= |all|
  {
  }

  /** Two sources at one node below the depth that hand over the same calls the node makes. */
  ghost predicate Rivals(g: Graph, q: Query, st: State, head: nat, a: Shown, b: Shown) {
    && Run(g, q, st, head) && Touched(g, q, st, head) && head < |st.order| && !st.stopped
    && st.order[head] in st.nodes && st.DepthOf(st.order[head]) < q.depth && Target in q.Columns()
    && Fair(g, q, st.order[head], a) && Fair(g, q, st.order[head], b)
    && (Source in q.Columns() ==> a.source == b.source)
    && !Expand(g, q, st, head, a).stopped
  }

  lemma RivalsMeet(g: Graph, q: Query, st: State, head: nat, a: Shown, b: Shown) returns (mid: State)
    requires Rivals(g, q, st, head, a, b)
    ensures Called(g, q, st, head, mid, a) && Called(g, q, st, head, mid, b)
    ensures var m := st.order[head];
            var first, second := VisitColumn(g, q, mid, st.DepthOf(m), Target, a.target).0,
                                 VisitColumn(g, q, mid, st.DepthOf(m), Target, b.target).0;
            && !first.stopped && first.edges == Expand(g, q, st, head, a).edges
            && second.edges == Expand(g, q, st, head, b).edges && (second.stopped <==> Expand(g, q, st, head, b).stopped)
            && (first == second ==> Expand(g, q, st, head, a) == Expand(g, q, st, head, b))
            && NoRepeats(first.edges) && |first.edges| <= q.maxEdges
  {
    var m := st.order[head];
    var distance := st.DepthOf(m);
    ExpandIsAfterNode(g, q, st, head, a);
    ExpandIsAfterNode(g, q, st, head, b);
    ExpandRuns(g, q, st, head, a);
    var after := Expand(g, q, st, head, a);
    RunLists(g, q, after, head + 1);
    assert FairIn(g, q, Target, m, a.In(Target));
    hide Run, FairIn, VisitColumn, NoRepeats, Expand, Touched;
    mid := AfterCalls(g, q, st, distance, a);
    ColumnTakesAll(g, q, mid, distance, Target, a.target);
    PrefixKeeps(mid.edges, after.edges);
  }

  lemma RunLists(g: Graph, q: Query, st: State, head: nat)
    requires Run(g, q, st, head)
    ensures NoRepeats(st.edges) && |st.edges| <= q.maxEdges
  {
    hide Layered, Exact, Closed, Anchored, StatusesRight, ReasonsRight, BoundariesAtDepth, NoRepeats;
  }

  /** When the first takes all it shows, both show the same calls to the node, and no more than the
      edges there may be. */
  lemma RivalsShow(g: Graph, q: Query, st: State, head: nat, a: Shown, b: Shown)
    requires Rivals(g, q, st, head, a, b)
    ensures |a.target| <= q.maxEdges && |b.target| <= q.maxEdges && forall id :: id in a.target <==> id in b.target
  {
    var m := st.order[head];
    var mid := RivalsMeet(g, q, st, head, a, b);
    assert FairIn(g, q, Target, m, a.In(Target)) && FairIn(g, q, Target, m, b.In(Target));
    ColumnTakesAll(g, q, mid, st.DepthOf(m), Target, a.target);
    hide Run, VisitColumn, NoRepeats, Expand, Touched, Untaken, Query.Columns, AfterCalls;
    FewerThanTheirCover(a.target, Expand(g, q, st, head, a).edges);
    forall i | 0 <= i < |b.target| ensures b.target[i] in a.target {
      assert Touches(g, q, Target, b.target[i], m);
    }
    FewerThanTheirCover(b.target, a.target);
    forall id | id in a.target ensures id in b.target {
      var i :| 0 <= i < |a.target| && a.target[i] == id;
      assert Touches(g, q, Target, a.target[i], m);
    }
  }

  /** The two lead to the same state if the calls that may show come in the same order. */
  lemma RivalsAgree(g: Graph, q: Query, st: State, head: nat, a: Shown, b: Shown)
    requires Rivals(g, q, st, head, a, b)
    requires var late := Late(q, st.order[..head + 1], st.order[head]);
             Pick(g, a.target, late) == Pick(g, b.target, late)
    ensures Expand(g, q, st, head, a) == Expand(g, q, st, head, b)
  {
    var m := st.order[head];
    var mid := RivalsMeet(g, q, st, head, a, b);
    assert FairIn(g, q, Target, m, a.In(Target)) && FairIn(g, q, Target, m, b.In(Target));
    hide Run, VisitColumn, NoRepeats, Expand, Touched, Untaken, Query.Columns, AfterCalls, Late, Called, Pick;
    UntakenIsLate(g, q, st, head, mid, a, a.target);
    UntakenIsLate(g, q, st, head, mid, b, b.target);
    ColumnUntaken(g, q, mid, st.DepthOf(m), Target, a.target);
    ColumnUntaken(g, q, mid, st.DepthOf(m), Target, b.target);
  }

  /** And only then, as far as the edges listed in the end tell. */
  lemma RivalsForced(g: Graph, q: Query, st: State, head: nat, a: Shown, b: Shown, all: seq<nat>)
    requires Rivals(g, q, st, head, a, b)
    requires Expand(g, q, st, head, a).edges <= all && Expand(g, q, st, head, b).edges <= all
    requires Expand(g, q, st, head, b).stopped ==> Expand(g, q, st, head, b).edges == all
    ensures var late := Late(q, st.order[..head + 1], st.order[head]);
            Pick(g, a.target, late) == Pick(g, b.target, late)
  {
    var m := st.order[head];
    var mid := RivalsMeet(g, q, st, head, a, b);
    RivalsShow(g, q, st, head, a, b);
    assert FairIn(g, q, Target, m, a.In(Target)) && FairIn(g, q, Target, m, b.In(Target));
    hide Run, VisitColumn, NoRepeats, Expand, Touched, Untaken, Query.Columns, AfterCalls, Late, Pick;
    UntakenIsLate(g, q, st, head, mid, a, a.target);
    UntakenIsLate(g, q, st, head, mid, b, b.target);
    ColumnForced(g, q, mid, st.DepthOf(m), Target, a.target, b.target, all);
  }
}
