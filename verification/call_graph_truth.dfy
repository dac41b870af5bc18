/** What a bounded traversal may claim: depths are true distances however it ended, and one
    that was not stopped lists everything within its depth. */
module CallGraphTruth {
  import opened Bytes
  import opened CallGraph

  // ---------------------------------------------------------------------------------------
  // Distance in the whole graph
  // ---------------------------------------------------------------------------------------

  /** One call site leads from `a` to `b` in a direction the query follows. */
  ghost predicate Hop(g: Graph, q: Query, a: Method, b: Method) {
    exists column, id :: Touches(g, q, column, id, a) && OtherEnd(g, column, id) == b
  }

  ghost predicate Within(g: Graph, q: Query, m: Method, hops: nat)
    decreases hops
  {
    if hops == 0 then m == q.root
    else Within(g, q, m, hops - 1) || exists from :: Within(g, q, from, hops - 1) && Hop(g, q, from, m)
  }

  ghost predicate AtDistance(g: Graph, q: Query, m: Method, hops: nat) {
    Within(g, q, m, hops) && (hops > 0 ==> !Within(g, q, m, hops - 1))
  }

  ghost predicate Walk(g: Graph, q: Query, path: seq<Method>) {
    var last := |path| - 1;
    path != [] && if last == 0 then path[0] == q.root
                  else Walk(g, q, path[..last]) && Hop(g, q, path[last - 1], path[last])
  }

  ghost predicate WalkTo(g: Graph, q: Query, path: seq<Method>, m: Method, hops: nat) {
    Walk(g, q, path) && |path| <= hops + 1 && path[|path| - 1] == m
  }

  lemma {:induction false} WalkIsWithin(g: Graph, q: Query, path: seq<Method>, m: Method, hops: nat)
    requires WalkTo(g, q, path, m, hops)
    ensures Within(g, q, m, hops)
    decreases hops, |path|
  {
    hide Hop;
    if |path| < hops + 1 {
      if hops > 0 {
        WalkIsWithin(g, q, path, m, hops - 1);
      }
    } else if hops > 0 {
      WalkIsWithin(g, q, path[..hops], path[hops - 1], hops - 1);
    }
  }

  lemma {:induction false} WithinHasWalk(g: Graph, q: Query, m: Method, hops: nat) returns (path: seq<Method>)
    requires Within(g, q, m, hops)
    ensures WalkTo(g, q, path, m, hops)
    decreases hops
  {
    hide Hop;
    if hops == 0 {
      path := [m];
    } else if Within(g, q, m, hops - 1) {
      path := WithinHasWalk(g, q, m, hops - 1);
    } else {
      var from :| Within(g, q, from, hops - 1) && Hop(g, q, from, m);
      var shorter := WithinHasWalk(g, q, from, hops - 1);
      path := shorter + [m];
      assert path[..|shorter|] == shorter;
    }
  }

  /** The level sets say what they should: a method is within n hops when a walk of at most n
      hops leads to it from the root. */
  lemma WithinIsWalk(g: Graph, q: Query, m: Method, hops: nat)
    ensures Within(g, q, m, hops) <==> exists path :: WalkTo(g, q, path, m, hops)
  {
    hide Walk, Within;
    if Within(g, q, m, hops) {
      var path := WithinHasWalk(g, q, m, hops);
    }
    forall path | WalkTo(g, q, path, m, hops) ensures Within(g, q, m, hops) {
      WalkIsWithin(g, q, path, m, hops);
    }
  }

  lemma {:induction false} WithinGrows(g: Graph, q: Query, m: Method, a: nat, b: nat)
    requires a <= b && Within(g, q, m, a)
    ensures Within(g, q, m, b)
    decreases b
  {
    if a < b {
      WithinGrows(g, q, m, a, b - 1);
    }
  }

  lemma DistanceIsLeast(g: Graph, q: Query, m: Method, d: nat, hops: nat)
    requires AtDistance(g, q, m, d) && Within(g, q, m, hops)
    ensures d <= hops
  {
    if hops < d {
      WithinGrows(g, q, m, hops, d - 1);
    }
  }

  // ---------------------------------------------------------------------------------------
  // What every step keeps
  // ---------------------------------------------------------------------------------------

  /** First in, first out: depths rise along the order, by at most one beyond the next node. */
  ghost predicate Layered(st: State, head: nat) {
    && (forall i, j :: 0 <= i <= j < |st.order| ==> st.DepthOf(st.order[i]) <= st.DepthOf(st.order[j]))
    && (head < |st.order| ==>
          forall j :: 0 <= j < |st.order| ==> st.DepthOf(st.order[j]) <= st.DepthOf(st.order[head]) + 1)
  }

  ghost predicate Exact(g: Graph, q: Query, st: State) {
    forall m :: m in st.nodes ==> st.nodes[m].depth <= q.depth && AtDistance(g, q, m, st.nodes[m].depth)
  }

  /** Both ends are listed, and the query follows the call site from one above the depth. */
  ghost predicate Anchored(g: Graph, q: Query, st: State, id: nat) {
    && id < |g.sites|
    && g.sites[id].caller in st.nodes && g.sites[id].callee in st.nodes
    && exists column :: column in q.Columns() && st.DepthOf(End(g, column, id)) < q.depth
  }

  ghost predicate AllAnchored(g: Graph, q: Query, st: State) {
    NoRepeats(st.edges) && forall id :: id in st.edges ==> Anchored(g, q, st, id)
  }

  ghost predicate Covered(g: Graph, q: Query, edges: seq<nat>, m: Method) {
    forall column, id :: Touches(g, q, column, id, m) ==> id in edges
  }

  ghost predicate Closed(g: Graph, q: Query, st: State, head: nat) {
    forall i :: 0 <= i < head && i < |st.order| && st.DepthOf(st.order[i]) < q.depth
                ==> Covered(g, q, st.edges, st.order[i])
  }

  ghost predicate Sound(g: Graph, q: Query, st: State, head: nat) {
    Listed(q, st) && Layered(st, head) && Exact(g, q, st) && AllAnchored(g, q, st) && Closed(g, q, st, head)
  }

  ghost predicate Reached(g: Graph, q: Query, st: State, hops: nat) {
    forall m :: Within(g, q, m, hops) ==> m in st.nodes
  }

  ghost predicate Grows(st: State, after: State) {
    && st.order <= after.order && st.edges <= after.edges
    && (forall m :: m in st.nodes ==> m in after.nodes && after.nodes[m] == st.nodes[m])
    && forall m :: m in after.nodes && m !in st.nodes ==> after.nodes[m].status == NotExpanded
  }

  lemma GrowsAgain(a: State, b: State, c: State)
    requires Grows(a, b) && Grows(b, c)
    ensures Grows(a, c)
  {
  }

  lemma EarlierWhenNearer(st: State, head: nat, m: Method) returns (i: nat)
    requires Layered(st, head) && head < |st.order| && m in st.order
    requires st.DepthOf(m) < st.DepthOf(st.order[head])
    ensures i < head && st.order[i] == m
  {
    i :| 0 <= i < |st.order| && st.order[i] == m;
  }

  lemma HopFromListed(g: Graph, q: Query, st: State, head: nat, from: Method, m: Method)
    requires Sound(g, q, st, head) && head < |st.order| && from in st.nodes && Hop(g, q, from, m)
    requires st.DepthOf(from) < st.DepthOf(st.order[head])
    ensures m in st.nodes
  {
    hide NoRepeats, AtDistance;
    var i := EarlierWhenNearer(st, head, from);
    assert st.order[head] in st.nodes;
    assert Covered(g, q, st.edges, st.order[i]);
    var column, id :| Touches(g, q, column, id, from) && OtherEnd(g, column, id) == m;
    assert id in st.edges;
    assert Anchored(g, q, st, id);
  }

  /** Before a node is taken, everything no farther than it is listed. */
  lemma {:induction false} NothingNearerIsMissing(g: Graph, q: Query, st: State, head: nat, hops: nat)
    requires Sound(g, q, st, head) && head < |st.order| && hops <= st.DepthOf(st.order[head])
    requires q.root in st.nodes
    ensures Reached(g, q, st, hops)
  {
    hide Layered, AllAnchored, Closed, NoRepeats, Hop;
    if hops > 0 {
      NothingNearerIsMissing(g, q, st, head, hops - 1);
      forall m | Within(g, q, m, hops) ensures m in st.nodes {
        if !Within(g, q, m, hops - 1) {
          var from :| Within(g, q, from, hops - 1) && Hop(g, q, from, m);
          DistanceIsLeast(g, q, from, st.nodes[from].depth, hops - 1);
          HopFromListed(g, q, st, head, from, m);
        }
      }
    }
  }

  // ---------------------------------------------------------------------------------------
  // Taking an edge keeps it
  // ---------------------------------------------------------------------------------------

  /** An unseen edge of the node being visited, accepted by every budget. */
  ghost predicate Takes(g: Graph, q: Query, st: State, head: nat, column: Column, id: nat) {
    && head < |st.order|
    && Touches(g, q, column, id, st.order[head])
    && st.DepthOf(st.order[head]) < q.depth
    && Judge(g, q, st, st.DepthOf(st.order[head]), column, id) == Accepted
  }

  function Taken(g: Graph, q: Query, st: State, head: nat, column: Column, id: nat): State
    requires id < |g.sites| && head < |st.order|
  {
    Take(g, q, st, st.DepthOf(st.order[head]), column, id)
  }

  lemma TakeGrows(g: Graph, q: Query, st: State, distance: nat, column: Column, id: nat)
    requires id < |g.sites|
    ensures Grows(st, Take(g, q, st, distance, column, id))
  {
    hide Size;
  }

  lemma DepthAfterTake(g: Graph, q: Query, st: State, distance: nat, column: Column, id: nat, m: Method)
    requires id < |g.sites| && m in st.nodes
    ensures Take(g, q, st, distance, column, id).DepthOf(m) == st.DepthOf(m)
  {
  }

  lemma TakeLayered(g: Graph, q: Query, st: State, head: nat, column: Column, id: nat)
    requires Listed(q, st) && Layered(st, head) && Takes(g, q, st, head, column, id)
    ensures Layered(Taken(g, q, st, head, column, id), head)
  {
    hide NoRepeats, Judge, Size;
    var after := Taken(g, q, st, head, column, id);
    var last := |after.order| - 1;
    forall i | 0 <= i < |st.order| ensures after.order[i] == st.order[i]
                                   ensures after.DepthOf(after.order[i]) == st.DepthOf(st.order[i])
    {
      assert st.order[i] in st.nodes;
    }
    if last == |st.order| {
      assert after.DepthOf(after.order[last]) == st.DepthOf(st.order[head]) + 1;
    }
  }

  lemma NewIsOneFarther(g: Graph, q: Query, st: State, m: Method, distance: nat, column: Column, id: nat)
    requires Within(g, q, m, distance) && Reached(g, q, st, distance) && Touches(g, q, column, id, m)
    requires OtherEnd(g, column, id) !in st.nodes
    ensures AtDistance(g, q, OtherEnd(g, column, id), distance + 1)
  {
    assert Hop(g, q, m, OtherEnd(g, column, id));
  }

  lemma TakeExact(g: Graph, q: Query, st: State, head: nat, column: Column, id: nat)
    requires Listed(q, st) && Exact(g, q, st) && Takes(g, q, st, head, column, id)
    requires Reached(g, q, st, st.DepthOf(st.order[head]))
    ensures Exact(g, q, Taken(g, q, st, head, column, id))
  {
    hide NoRepeats, Judge, Size, Within, Reached, Hop;
    var m, other := st.order[head], OtherEnd(g, column, id);
    assert m in st.nodes;
    if other !in st.nodes {
      NewIsOneFarther(g, q, st, m, st.DepthOf(m), column, id);
    }
  }

  lemma StillAnchored(g: Graph, q: Query, st: State, after: State, id: nat)
    requires Grows(st, after) && Anchored(g, q, st, id)
    ensures Anchored(g, q, after, id)
  {
    var column :| column in q.Columns() && st.DepthOf(End(g, column, id)) < q.depth;
    assert End(g, column, id) in st.nodes;
    assert after.DepthOf(End(g, column, id)) < q.depth;
  }

  lemma TakeAnchored(g: Graph, q: Query, st: State, head: nat, column: Column, id: nat)
    requires Listed(q, st) && AllAnchored(g, q, st) && Takes(g, q, st, head, column, id)
    ensures AllAnchored(g, q, Taken(g, q, st, head, column, id))
  {
    hide NoRepeats, Anchored, Size;
    var after := Taken(g, q, st, head, column, id);
    var distance := st.DepthOf(st.order[head]);
    TakeGrows(g, q, st, distance, column, id);
    NoRepeatsAppend(st.edges, id);
    forall e | e in after.edges ensures Anchored(g, q, after, e) {
      if e in st.edges {
        StillAnchored(g, q, st, after, e);
      } else {
        TakenAnchored(g, q, st, head, column, id);
      }
    }
  }

  lemma TakenAnchored(g: Graph, q: Query, st: State, head: nat, column: Column, id: nat)
    requires Listed(q, st) && Takes(g, q, st, head, column, id)
    ensures Anchored(g, q, Taken(g, q, st, head, column, id), id)
  {
    hide NoRepeats, Judge, Size;
    DepthAfterTake(g, q, st, st.DepthOf(st.order[head]), column, id, st.order[head]);
  }

  lemma StillClosed(g: Graph, q: Query, st: State, after: State, head: nat)
    requires Listed(q, st) && Closed(g, q, st, head) && Grows(st, after) && head <= |st.order|
    ensures Closed(g, q, after, head)
  {
    hide NoRepeats;
    forall i | 0 <= i < head && after.DepthOf(after.order[i]) < q.depth
      ensures Covered(g, q, after.edges, after.order[i])
    {
      assert after.order[i] == st.order[i] && st.order[i] in st.nodes;
      assert Covered(g, q, st.edges, st.order[i]);
    }
  }

  lemma TakeSound(g: Graph, q: Query, st: State, head: nat, column: Column, id: nat)
    requires Sound(g, q, st, head) && Takes(g, q, st, head, column, id)
    requires Reached(g, q, st, st.DepthOf(st.order[head]))
    ensures Sound(g, q, Taken(g, q, st, head, column, id), head)
  {
    TakeSoundly(g, q, st, head, column, id);
    hide Layered, Exact, AllAnchored, Closed, Listed, Grows, Take, Judge, Reached;
    TakeLayered(g, q, st, head, column, id);
    TakeExact(g, q, st, head, column, id);
    TakeAnchored(g, q, st, head, column, id);
    StillClosed(g, q, st, Taken(g, q, st, head, column, id), head);
  }

  lemma TakeSoundly(g: Graph, q: Query, st: State, head: nat, column: Column, id: nat)
    requires Listed(q, st) && Takes(g, q, st, head, column, id)
    ensures Listed(q, Taken(g, q, st, head, column, id)) && Grows(st, Taken(g, q, st, head, column, id))
  {
    hide NoRepeats, Take, Size;
    TakeListed(g, q, st, st.DepthOf(st.order[head]), column, id);
    TakeGrows(g, q, st, st.DepthOf(st.order[head]), column, id);
  }

  lemma ReasonsDoNotMatter(g: Graph, q: Query, st: State, head: nat, reasons: set<Reason>, stopped: bool)
    requires Sound(g, q, st, head)
    ensures Sound(g, q, st.(reasons := reasons, stopped := stopped), head)
    ensures Grows(st, st.(reasons := reasons, stopped := stopped))
  {
    hide NoRepeats, AtDistance, Covered;
    var after := st.(reasons := reasons, stopped := stopped);
    forall id | id in after.edges ensures Anchored(g, q, after, id) {
      StillAnchored(g, q, st, after, id);
    }
  }

  // ---------------------------------------------------------------------------------------
  // One column
  // ---------------------------------------------------------------------------------------

  ghost predicate AllTouch(g: Graph, q: Query, column: Column, ids: seq<nat>, m: Method) {
    forall i :: 0 <= i < |ids| ==> Touches(g, q, column, ids[i], m)
  }

  ghost predicate AllSeen(ids: seq<nat>, edges: seq<nat>) {
    forall i :: 0 <= i < |ids| ==> ids[i] in edges
  }

  /** What one column may have done to the state. */
  ghost predicate Outcome(g: Graph, q: Query, st: State, head: nat, ids: seq<nat>, after: State, flow: Flow) {
    && Sound(g, q, after, head)
    && Grows(st, after)
    && (flow == Stop <==> after.stopped)
    && (flow == Next ==> AllSeen(ids, after.edges))
    && (flow == Boundary ==> !AllSeen(ids, after.edges))
  }

  lemma VisitEdgeOutcome(g: Graph, q: Query, st: State, head: nat, column: Column, id: nat)
    requires Sound(g, q, st, head) && head < |st.order| && !st.stopped
    requires Reached(g, q, st, st.DepthOf(st.order[head])) && Touches(g, q, column, id, st.order[head])
    ensures var (after, flow) := VisitEdge(g, q, st, st.DepthOf(st.order[head]), column, id);
            Outcome(g, q, st, head, [id], after, flow)
  {
    hide Sound, Grows, Size, Reached, Take;
    assert [id][0] == id;
    var distance := st.DepthOf(st.order[head]);
    var verdict := Judge(g, q, st, distance, column, id);
    SoundDepth(g, q, st, head);
    ReasonsDoNotMatter(g, q, st, head, st.reasons, st.stopped);
    assert st.(reasons := st.reasons, stopped := st.stopped) == st;
    if verdict.AtDepth? {
      ReasonsDoNotMatter(g, q, st, head, st.reasons + {Depth}, st.stopped);
    } else if verdict.Refused? {
      ReasonsDoNotMatter(g, q, st, head, st.reasons + {verdict.reason}, true);
    } else if verdict.Accepted? {
      TakeSound(g, q, st, head, column, id);
      SoundListed(g, q, st, head);
      TakeSoundly(g, q, st, head, column, id);
      TakenIsSeen(g, q, st, distance, column, id);
    }
  }

  lemma SoundListed(g: Graph, q: Query, st: State, head: nat)
    requires Sound(g, q, st, head)
    ensures Listed(q, st)
  {
  }

  lemma SoundDepth(g: Graph, q: Query, st: State, head: nat)
    requires Sound(g, q, st, head) && head < |st.order|
    ensures st.order[head] in st.nodes && st.DepthOf(st.order[head]) <= q.depth
  {
  }

  lemma TakenIsSeen(g: Graph, q: Query, st: State, distance: nat, column: Column, id: nat)
    requires id < |g.sites|
    ensures id in Take(g, q, st, distance, column, id).edges
    ensures Take(g, q, st, distance, column, id).stopped == st.stopped
  {
    assert (st.edges + [id])[|st.edges|] == id;
  }

  lemma OutcomeKeeps(g: Graph, q: Query, st: State, head: nat, ids: seq<nat>, after: State, flow: Flow)
    requires Outcome(g, q, st, head, ids, after, flow)
    requires head < |st.order| && Reached(g, q, st, st.DepthOf(st.order[head])) && Listed(q, st)
    ensures head < |after.order| && after.order[head] == st.order[head]
    ensures after.DepthOf(st.order[head]) == st.DepthOf(st.order[head])
    ensures Reached(g, q, after, st.DepthOf(st.order[head]))
  {
    hide Sound, Within, NoRepeats;
  }

  lemma OutcomeJoins(g: Graph, q: Query, st: State, head: nat, id: nat, mid: State, ids: seq<nat>, after: State, flow: Flow)
    requires Outcome(g, q, st, head, [id], mid, Next) && Outcome(g, q, mid, head, ids, after, flow)
    ensures Outcome(g, q, st, head, [id] + ids, after, flow)
  {
    hide Sound;
    GrowsAgain(st, mid, after);
    var all := [id] + ids;
    assert [id][0] in mid.edges && id in after.edges;
    assert forall i :: 0 <= i < |ids| ==> all[i + 1] == ids[i];
    if AllSeen(ids, after.edges) {
      assert AllSeen(all, after.edges);
    } else {
      var i :| 0 <= i < |ids| && ids[i] !in after.edges;
      assert all[i + 1] !in after.edges;
    }
  }

  lemma {:induction false} VisitColumnOutcome(g: Graph, q: Query, st: State, head: nat, column: Column, ids: seq<nat>)
    requires Sound(g, q, st, head) && head < |st.order| && !st.stopped
    requires Reached(g, q, st, st.DepthOf(st.order[head])) && AllTouch(g, q, column, ids, st.order[head])
    ensures var (after, flow) := VisitColumn(g, q, st, st.DepthOf(st.order[head]), column, ids);
            Outcome(g, q, st, head, ids, after, flow)
    decreases |ids|
  {
    hide Sound, Grows, Reached, VisitEdge, Outcome;
    var distance := st.DepthOf(st.order[head]);
    if ids == [] {
      NothingVisited(g, q, st, head);
    } else {
      assert Touches(g, q, column, ids[0], st.order[head]);
      VisitEdgeOutcome(g, q, st, head, column, ids[0]);
      var (mid, first) := VisitEdge(g, q, st, distance, column, ids[0]);
      OutcomeParts(g, q, st, head, [ids[0]], mid, first);
      SoundListed(g, q, st, head);
      assert ids == [ids[0]] + ids[1..];
      if first == Next {
        OutcomeKeeps(g, q, st, head, [ids[0]], mid, first);
        VisitColumnOutcome(g, q, mid, head, column, ids[1..]);
        var (after, flow) := VisitColumn(g, q, mid, distance, column, ids[1..]);
        OutcomeJoins(g, q, st, head, ids[0], mid, ids[1..], after, flow);
      } else {
        OutcomeEarly(g, q, st, head, ids, mid, first);
      }
    }
  }

  lemma NothingVisited(g: Graph, q: Query, st: State, head: nat)
    requires Sound(g, q, st, head) && !st.stopped
    ensures Outcome(g, q, st, head, [], st, Next)
  {
    hide Sound;
  }

  lemma OutcomeParts(g: Graph, q: Query, st: State, head: nat, ids: seq<nat>, after: State, flow: Flow)
    requires Outcome(g, q, st, head, ids, after, flow)
    ensures Sound(g, q, after, head) && Grows(st, after) && (flow == Stop <==> after.stopped)
  {
    hide Sound, Grows;
  }

  lemma OutcomeEarly(g: Graph, q: Query, st: State, head: nat, ids: seq<nat>, after: State, flow: Flow)
    requires ids != [] && flow != Next && Outcome(g, q, st, head, [ids[0]], after, flow)
    ensures Outcome(g, q, st, head, ids, after, flow)
  {
    hide Sound, Grows;
  }

  // ---------------------------------------------------------------------------------------
  // The cut
  // ---------------------------------------------------------------------------------------

  lemma FewerThanTheirCover(xs: seq<nat>, ys: seq<nat>)
    requires NoRepeats(xs) && NoRepeats(ys) && AllSeen(xs, ys)
    ensures |xs| <= |ys|
  {
    DistinctCount(xs);
    DistinctCount(ys);
    assert Elements(xs) <= Elements(ys);
    SubsetIsSmaller(Elements(xs), Elements(ys));
  }

  lemma SubsetIsSmaller(a: set<nat>, b: set<nat>)
    requires a <= b
    ensures |a| <= |b|
  {
    assert b == a + (b - a);
  }

  /** One more than the edge budget is enough: when everything a cut adjacency shows has been taken
      within the budget, the cut has hidden nothing, in whatever order it is shown. */
  lemma CutHidesNothing(g: Graph, q: Query, edges: seq<nat>, column: Column, m: Method, ids: seq<nat>)
    requires NoRepeats(edges) && |edges| <= q.maxEdges && column in q.Columns() && FairIn(g, q, column, m, ids)
    ensures AllSeen(ids, edges) <==> forall id :: Touches(g, q, column, id, m) ==> id in edges
  {
    hide NoRepeats, Touches;
    if AllSeen(ids, edges) {
      FewerThanTheirCover(ids, edges);
    }
  }

  ghost predicate ColumnsSeen(columns: seq<Column>, shown: Shown, edges: seq<nat>) {
    forall i :: 0 <= i < |columns| ==> AllSeen(shown.In(columns[i]), edges)
  }

  lemma SeenIsCovered(g: Graph, q: Query, edges: seq<nat>, m: Method, shown: Shown)
    requires NoRepeats(edges) && |edges| <= q.maxEdges && Fair(g, q, m, shown)
    ensures ColumnsSeen(q.Columns(), shown, edges) <==> Covered(g, q, edges, m)
  {
    hide NoRepeats, AllSeen, FairIn, Inside;
    var columns := q.Columns();
    forall i | 0 <= i < |columns|
      ensures AllSeen(shown.In(columns[i]), edges) <==> forall id :: Touches(g, q, columns[i], id, m) ==> id in edges
    {
      CutHidesNothing(g, q, edges, columns[i], m, shown.In(columns[i]));
    }
  }

  // ---------------------------------------------------------------------------------------
  // One node
  // ---------------------------------------------------------------------------------------

  ghost predicate Frozen(st: State, after: State) {
    after.(reasons := st.reasons) == st
  }

  /** At the depth limit an edge is looked at but nothing is listed. */
  lemma {:induction false} ColumnAtDepth(g: Graph, q: Query, st: State, column: Column, ids: seq<nat>)
    requires forall i :: 0 <= i < |ids| ==> ids[i] < |g.sites|
    ensures var (after, flow) := VisitColumn(g, q, st, q.depth, column, ids);
            && Frozen(st, after) && flow != Stop
            && after.reasons == if flow == Boundary then st.reasons + {Depth} else st.reasons
    decreases |ids|
  {
    if ids != [] && VisitEdge(g, q, st, q.depth, column, ids[0]).1 == Next {
      ColumnAtDepth(g, q, st, column, ids[1..]);
    }
  }

  /** Why the traversal stopped: an edge of the current node that a budget refuses. */
  ghost predicate Cause(g: Graph, q: Query, after: State, m: Method, distance: nat, reason: Reason) {
    exists column, id :: Touches(g, q, column, id, m) && Judge(g, q, after, distance, column, id) == Refused(reason)
  }

  ghost predicate Stopped(g: Graph, q: Query, reasons: set<Reason>, after: State, m: Method, distance: nat) {
    exists reason :: after.reasons == reasons + {reason} && Cause(g, q, after, m, distance, reason)
  }

  ghost predicate BelowDepth(g: Graph, q: Query, st: State, after: State, m: Method, distance: nat) {
    if after.stopped then Stopped(g, q, st.reasons, after, m, distance) else after.reasons == st.reasons
  }

  lemma {:induction false} ColumnBelowDepth(g: Graph, q: Query, st: State, m: Method, distance: nat, column: Column,
                                            ids: seq<nat>)
    requires AllTouch(g, q, column, ids, m) && distance != q.depth && !st.stopped
    ensures var (after, flow) := VisitColumn(g, q, st, distance, column, ids);
            flow != Boundary && BelowDepth(g, q, st, after, m, distance)
    decreases |ids|
  {
    hide Take, Size;
    if ids != [] {
      assert Touches(g, q, column, ids[0], m);
      var verdict := Judge(g, q, st, distance, column, ids[0]);
      var (mid, flow) := VisitEdge(g, q, st, distance, column, ids[0]);
      if flow == Next {
        TakeKeepsReasons(g, q, st, distance, column, ids[0]);
        ColumnBelowDepth(g, q, mid, m, distance, column, ids[1..]);
      } else {
        JudgeIgnoresReasons(g, q, st, mid, distance, column, ids[0]);
        assert Cause(g, q, mid, m, distance, verdict.reason);
      }
    }
  }

  lemma TakeKeepsReasons(g: Graph, q: Query, st: State, distance: nat, column: Column, id: nat)
    requires id < |g.sites|
    ensures Take(g, q, st, distance, column, id).reasons == st.reasons
    ensures Take(g, q, st, distance, column, id).stopped == st.stopped
  {
  }

  lemma JudgeIgnoresReasons(g: Graph, q: Query, st: State, after: State, distance: nat, column: Column, id: nat)
    requires id < |g.sites| && after.(reasons := st.reasons, stopped := st.stopped) == st
    ensures Judge(g, q, after, distance, column, id) == Judge(g, q, st, distance, column, id)
  {
  }

  lemma ShownTouches(g: Graph, q: Query, column: Column, m: Method, shown: Shown)
    requires column in q.Columns() && Fair(g, q, m, shown)
    ensures AllTouch(g, q, column, shown.In(column), m)
  {
    assert FairIn(g, q, column, m, shown.In(column));
  }

  ghost predicate Followed(q: Query, columns: seq<Column>) {
    forall i :: 0 <= i < |columns| ==> columns[i] in q.Columns()
  }

  lemma {:induction false} ColumnsAtDepth(g: Graph, q: Query, st: State, columns: seq<Column>, shown: Shown, before: bool)
    requires !st.stopped && (before ==> Depth in st.reasons) && Inside(g, shown)
    ensures var (after, boundary) := VisitColumns(g, q, st, q.depth, columns, shown, before);
            && Frozen(st, after) && (before ==> boundary)
            && after.reasons == if boundary then st.reasons + {Depth} else st.reasons
    decreases |columns|
  {
    hide VisitColumn;
    if columns != [] {
      var ids := shown.In(columns[0]);
      ColumnAtDepth(g, q, st, columns[0], ids);
      var (mid, flow) := VisitColumn(g, q, st, q.depth, columns[0], ids);
      ColumnsAtDepth(g, q, mid, columns[1..], shown, before || flow == Boundary);
    }
  }

  lemma {:induction false} ColumnsBelowDepth(g: Graph, q: Query, st: State, m: Method, distance: nat,
                                             columns: seq<Column>, shown: Shown)
    requires distance != q.depth && !st.stopped && Followed(q, columns) && Fair(g, q, m, shown)
    ensures var (after, boundary) := VisitColumns(g, q, st, distance, columns, shown, false);
            !boundary && BelowDepth(g, q, st, after, m, distance)
    decreases |columns|
  {
    hide VisitColumn, AllTouch, Stopped;
    if columns != [] {
      var ids := shown.In(columns[0]);
      ShownTouches(g, q, columns[0], m, shown);
      ColumnBelowDepth(g, q, st, m, distance, columns[0], ids);
      var (mid, flow) := VisitColumn(g, q, st, distance, columns[0], ids);
      StopIsStopped(g, q, st, distance, columns[0], ids);
      if flow != Stop {
        StoppedAlike(g, q, st, mid, m, distance);
        ColumnsBelowDepth(g, q, mid, m, distance, columns[1..], shown);
      }
    }
  }

  lemma {:induction false} StopIsStopped(g: Graph, q: Query, st: State, distance: nat, column: Column, ids: seq<nat>)
    requires forall i :: 0 <= i < |ids| ==> ids[i] < |g.sites|
    requires !st.stopped
    ensures var (after, flow) := VisitColumn(g, q, st, distance, column, ids); flow == Stop <==> after.stopped
    decreases |ids|
  {
    hide Judge, Size;
    if ids != [] && VisitEdge(g, q, st, distance, column, ids[0]).1 == Next {
      StopIsStopped(g, q, VisitEdge(g, q, st, distance, column, ids[0]).0, distance, column, ids[1..]);
    }
  }

  lemma StoppedAlike(g: Graph, q: Query, st: State, mid: State, m: Method, distance: nat)
    requires mid.reasons == st.reasons
    ensures forall after :: BelowDepth(g, q, mid, after, m, distance) <==> BelowDepth(g, q, st, after, m, distance)
  {
  }

  /** What the columns of one node may have listed. */
  ghost predicate Visited(g: Graph, q: Query, st: State, head: nat, columns: seq<Column>, shown: Shown, before: bool,
                          after: State, boundary: bool)
  {
    && Sound(g, q, after, head) && Grows(st, after)
    && (!after.stopped ==> (boundary <==> before || !ColumnsSeen(columns, shown, after.edges)))
  }

  lemma {:induction false} ColumnsVisited(g: Graph, q: Query, st: State, head: nat, columns: seq<Column>, shown: Shown,
                                          before: bool)
    requires Sound(g, q, st, head) && head < |st.order| && !st.stopped && Followed(q, columns)
    requires Fair(g, q, st.order[head], shown)
    requires Reached(g, q, st, st.DepthOf(st.order[head]))
    requires before ==> Depth in st.reasons && st.DepthOf(st.order[head]) == q.depth
    ensures var (after, boundary) := VisitColumns(g, q, st, st.DepthOf(st.order[head]), columns, shown, before);
            Visited(g, q, st, head, columns, shown, before, after, boundary)
    decreases |columns|
  {
    hide VisitColumn, AllTouch, Sound, Grows, Reached, Outcome, Visited, FairIn, Frozen, Query.Columns;
    var m, distance := st.order[head], st.DepthOf(st.order[head]);
    SoundListed(g, q, st, head);
    if columns == [] {
      NoColumns(g, q, st, head, shown, before);
    } else {
      var ids := shown.In(columns[0]);
      ShownTouches(g, q, columns[0], m, shown);
      VisitColumnOutcome(g, q, st, head, columns[0], ids);
      var (mid, flow) := VisitColumn(g, q, st, distance, columns[0], ids);
      OutcomeParts(g, q, st, head, ids, mid, flow);
      OutcomeKeeps(g, q, st, head, ids, mid, flow);
      assert columns == [columns[0]] + columns[1..];
      if flow == Stop {
        VisitedStopped(g, q, st, head, columns, shown, before, mid);
      } else {
        BoundaryAtDepth(g, q, st, m, distance, columns[0], ids);
        ColumnsVisited(g, q, mid, head, columns[1..], shown, before || flow == Boundary);
        var (after, boundary) := VisitColumns(g, q, mid, distance, columns[1..], shown, before || flow == Boundary);
        if flow == Boundary {
          ColumnsAtDepth(g, q, mid, columns[1..], shown, true);
        }
        VisitedJoins(g, q, st, head, columns, shown, before, mid, flow, after, boundary);
      }
    }
  }

  lemma BoundaryAtDepth(g: Graph, q: Query, st: State, m: Method, distance: nat, column: Column, ids: seq<nat>)
    requires AllTouch(g, q, column, ids, m) && !st.stopped
    ensures var (after, flow) := VisitColumn(g, q, st, distance, column, ids);
            && (flow == Boundary ==> distance == q.depth && Depth in after.reasons)
            && st.reasons <= after.reasons
  {
    hide VisitColumn, Cause;
    if distance == q.depth {
      ColumnAtDepth(g, q, st, column, ids);
    } else {
      ColumnBelowDepth(g, q, st, m, distance, column, ids);
    }
  }

  lemma NoColumns(g: Graph, q: Query, st: State, head: nat, shown: Shown, before: bool)
    requires Sound(g, q, st, head)
    ensures Visited(g, q, st, head, [], shown, before, st, before)
  {
    hide Sound;
  }

  lemma VisitedStopped(g: Graph, q: Query, st: State, head: nat, columns: seq<Column>, shown: Shown, before: bool,
                       after: State)
    requires Sound(g, q, after, head) && Grows(st, after) && after.stopped
    ensures Visited(g, q, st, head, columns, shown, before, after, before)
  {
    hide Sound, Grows;
  }

  lemma VisitedJoins(g: Graph, q: Query, st: State, head: nat, columns: seq<Column>, shown: Shown, before: bool,
                     mid: State, flow: Flow, after: State, boundary: bool)
    requires columns != []
    requires Outcome(g, q, st, head, shown.In(columns[0]), mid, flow) && flow != Stop
    requires Visited(g, q, mid, head, columns[1..], shown, before || flow == Boundary, after, boundary)
    requires flow == Boundary ==> Frozen(mid, after)
    ensures Visited(g, q, st, head, columns, shown, before, after, boundary)
  {
    hide Sound;
    GrowsAgain(st, mid, after);
    assert AllSeen(shown.In(columns[0]), mid.edges) ==> AllSeen(shown.In(columns[0]), after.edges);
    ColumnsSeenSplit(columns, shown, after.edges);
  }

  lemma ColumnsSeenSplit(columns: seq<Column>, shown: Shown, edges: seq<nat>)
    requires columns != []
    ensures ColumnsSeen(columns, shown, edges) <==>
            AllSeen(shown.In(columns[0]), edges) && ColumnsSeen(columns[1..], shown, edges)
  {
    hide AllSeen;
    assert forall i :: 0 < i < |columns| ==> columns[i] == columns[1..][i - 1];
    if ColumnsSeen(columns, shown, edges) {
      assert AllSeen(shown.In(columns[0]), edges);
      forall i | 0 <= i < |columns[1..]| ensures AllSeen(shown.In(columns[1..][i]), edges) {
        assert AllSeen(shown.In(columns[i + 1]), edges);
      }
    }
  }

  // ---------------------------------------------------------------------------------------
  // The run
  // ---------------------------------------------------------------------------------------

  /** What the status of the node at `i` tells about its call sites. */
  ghost predicate StatusRight(g: Graph, q: Query, st: State, head: nat, i: nat)
    requires i < |st.order|
  {
    var m := st.order[i];
    st.StatusOf(m) == if i >= head then NotExpanded
                      else if st.stopped && i + 1 == head then BudgetBoundary
                      else if Covered(g, q, st.edges, m) then Expanded
                      else DepthBoundary
  }

  ghost predicate StatusesRight(g: Graph, q: Query, st: State, head: nat) {
    forall i :: 0 <= i < |st.order| ==> StatusRight(g, q, st, head, i)
  }

  ghost predicate AtBoundary(st: State, i: int) {
    0 <= i < |st.order| && st.StatusOf(st.order[i]) == DepthBoundary
  }

  ghost predicate BoundariesAtDepth(q: Query, st: State) {
    forall i :: AtBoundary(st, i) ==> st.DepthOf(st.order[i]) == q.depth
  }

  /** One reason at most: the depth of some boundary, or the budget that refused an edge of the
      last node taken. */
  ghost predicate ReasonsRight(g: Graph, q: Query, st: State, head: nat) {
    if st.stopped then
      && 0 < head <= |st.order|
      && Stopped(g, q, {}, st, st.order[head - 1], st.DepthOf(st.order[head - 1]))
    else
      st.reasons == if SomeBoundary(st) then {Depth} else {}
  }

  ghost predicate Run(g: Graph, q: Query, st: State, head: nat) {
    && (st.stopped ==> head > 0) && Sound(g, q, st, if st.stopped then head - 1 else head)
    && StatusesRight(g, q, st, head) && BoundariesAtDepth(q, st) && ReasonsRight(g, q, st, head)
    && head <= |st.order| && q.root in st.nodes
  }

  function WithStatus(st: State, m: Method, status: Status): State {
    if m !in st.nodes then st else st.(nodes := st.nodes[m := st.nodes[m].(status := status)])
  }

  lemma StatusKeepsSound(g: Graph, q: Query, st: State, head: nat, m: Method, status: Status)
    requires Sound(g, q, st, head)
    ensures Sound(g, q, WithStatus(st, m, status), head)
  {
    hide NoRepeats, AtDistance, Covered;
    var after := WithStatus(st, m, status);
    assert forall k :: after.DepthOf(k) == st.DepthOf(k);
    forall id | id in after.edges ensures Anchored(g, q, after, id) {
      assert Anchored(g, q, st, id);
    }
  }

  /** What looking at a node may have done: whether it is a boundary says whether it lacks a call site. */
  ghost predicate Looked(g: Graph, q: Query, st: State, head: nat, mid: State, boundary: bool) {
    && head < |st.order| && Sound(g, q, mid, head) && Grows(st, mid)
    && (!mid.stopped ==> (boundary <==> !Covered(g, q, mid.edges, st.order[head])))
  }

  lemma VisitedLooked(g: Graph, q: Query, st: State, head: nat, shown: Shown, mid: State, boundary: bool)
    requires head < |st.order| && Fair(g, q, st.order[head], shown)
    requires Visited(g, q, st, head, q.Columns(), shown, false, mid, boundary)
    ensures Looked(g, q, st, head, mid, boundary)
  {
    hide Grows, Layered, Exact, Closed, Anchored, Covered, ColumnsSeen, Fair;
    SeenIsCovered(g, q, mid.edges, st.order[head], shown);
  }

  /** The end of `Expand`: its node gets its status. */
  ghost predicate Finishes(g: Graph, q: Query, st: State, head: nat, mid: State, boundary: bool, after: State) {
    && Run(g, q, st, head) && head < |st.order| && !st.stopped
    && Looked(g, q, st, head, mid, boundary)
    && (if st.DepthOf(st.order[head]) == q.depth
        then Frozen(st, mid) && mid.reasons == if boundary then st.reasons + {Depth} else st.reasons
        else !boundary && BelowDepth(g, q, st, mid, st.order[head], st.DepthOf(st.order[head])))
    && after == WithStatus(mid, st.order[head],
                           if mid.stopped then BudgetBoundary else if boundary then DepthBoundary else Expanded)
  }

  lemma ExpandFinishes(g: Graph, q: Query, st: State, head: nat, shown: Shown)
    requires Run(g, q, st, head) && head < |st.order| && !st.stopped && Fair(g, q, st.order[head], shown)
    ensures st.order[head] in st.nodes && Inside(g, shown)
    ensures var (mid, boundary) := VisitColumns(g, q, st, st.DepthOf(st.order[head]), q.Columns(), shown, false);
            Finishes(g, q, st, head, mid, boundary, Expand(g, q, st, head, shown))
  {
    hide Sound, VisitColumns, Frozen, BelowDepth, Visited, Looked, StatusesRight, ReasonsRight, BoundariesAtDepth, FairIn;
    var m, distance := st.order[head], st.DepthOf(st.order[head]);
    SoundDepth(g, q, st, head);
    NothingNearerIsMissing(g, q, st, head, distance);
    ColumnsVisited(g, q, st, head, q.Columns(), shown, false);
    var (mid, boundary) := VisitColumns(g, q, st, distance, q.Columns(), shown, false);
    VisitedLooked(g, q, st, head, shown, mid, boundary);
    if distance == q.depth {
      ColumnsAtDepth(g, q, st, q.Columns(), shown, false);
    } else {
      ColumnsBelowDepth(g, q, st, m, distance, q.Columns(), shown);
    }
  }

  lemma FinishKnows(g: Graph, q: Query, st: State, head: nat, mid: State, boundary: bool, after: State)
    requires Finishes(g, q, st, head, mid, boundary, after)
    ensures Sound(g, q, mid, head) && Grows(st, mid) && st.order[head] in mid.nodes && st.order[head] in st.nodes
    ensures !mid.stopped ==> (boundary <==> !Covered(g, q, mid.edges, st.order[head]))
    ensures st.DepthOf(st.order[head]) == q.depth ==> mid.edges == st.edges && mid.order == st.order && !mid.stopped
    ensures mid.order[head] == st.order[head] && mid.DepthOf(st.order[head]) == st.DepthOf(st.order[head]) <= q.depth
  {
    hide Exact, Closed, Anchored, StatusesRight, Layered, Covered, BelowDepth;
    SoundDepth(g, q, st, head);
    SoundListed(g, q, mid, head);
  }

  lemma AdvanceSound(g: Graph, q: Query, st: State, head: nat)
    requires Sound(g, q, st, head) && head < |st.order|
    requires st.DepthOf(st.order[head]) < q.depth ==> Covered(g, q, st.edges, st.order[head])
    ensures Sound(g, q, st, head + 1)
  {
    hide NoRepeats, Covered, Exact, AllAnchored;
  }

  lemma FinishSound(g: Graph, q: Query, st: State, head: nat, mid: State, boundary: bool, after: State)
    requires Finishes(g, q, st, head, mid, boundary, after)
    ensures Sound(g, q, after, if after.stopped then head else head + 1)
  {
    FinishKnows(g, q, st, head, mid, boundary, after);
    hide Looked, Run, Covered, Grows, Sound;
    var status := if mid.stopped then BudgetBoundary else if boundary then DepthBoundary else Expanded;
    StatusKeepsSound(g, q, mid, head, st.order[head], status);
    if !mid.stopped {
      AdvanceSound(g, q, after, head);
    }
  }

  lemma ListedApart(q: Query, st: State, i: nat, j: nat)
    requires Listed(q, st) && i < |st.order| && j < |st.order|
    ensures st.order[i] in st.nodes && (st.order[i] == st.order[j] <==> i == j)
  {
  }

  lemma FinishStatuses(g: Graph, q: Query, st: State, head: nat, mid: State, boundary: bool, after: State)
    requires Finishes(g, q, st, head, mid, boundary, after)
    ensures StatusesRight(g, q, after, head + 1)
  {
    FinishKnows(g, q, st, head, mid, boundary, after);
    var next := head + 1;
    forall i: nat | i < |after.order| ensures StatusRight(g, q, after, next, i) {
      if i == head {
        FinishedStatus(g, q, st, head, mid, boundary, after);
      } else {
        OtherStatus(g, q, st, head, mid, boundary, after, i);
      }
    }
  }

  lemma FinishedStatus(g: Graph, q: Query, st: State, head: nat, mid: State, boundary: bool, after: State)
    requires Finishes(g, q, st, head, mid, boundary, after) && head < |after.order|
    ensures StatusRight(g, q, after, head + 1, head)
  {
    FinishKnows(g, q, st, head, mid, boundary, after);
    hide Looked, Run, Covered, Grows, Sound;
  }

  lemma NewInOrder(q: Query, st: State, mid: State, i: nat)
    requires Listed(q, st) && Listed(q, mid) && Grows(st, mid) && |st.order| <= i < |mid.order|
    ensures mid.order[i] in mid.nodes && mid.order[i] !in st.nodes
  {
  }

  lemma FinishSets(g: Graph, q: Query, st: State, head: nat, mid: State, boundary: bool, after: State)
    requires Finishes(g, q, st, head, mid, boundary, after)
    ensures head < |st.order| && Grows(st, mid) && Listed(q, st) && StatusesRight(g, q, st, head)
    ensures after == WithStatus(mid, st.order[head],
                                if mid.stopped then BudgetBoundary else if boundary then DepthBoundary else Expanded)
  {
    SoundListed(g, q, st, head);
    hide Sound, Listed, Grows, StatusesRight, ReasonsRight, BoundariesAtDepth, BelowDepth, Frozen, WithStatus;
  }

  lemma WithStatusApart(st: State, mid: State, m: Method, status: Status, i: nat)
    requires Grows(st, mid) && i < |st.order| && st.order[i] in st.nodes && st.order[i] != m
    ensures var after := WithStatus(mid, m, status);
            && i < |after.order| && after.order[i] == st.order[i]
            && st.order[i] in after.nodes && after.nodes[st.order[i]] == st.nodes[st.order[i]]
  {
    assert mid.order[i] == st.order[i];
  }

  /** Neither the nodes listed before nor those this node listed change, apart from itself. */
  lemma OldNode(g: Graph, q: Query, st: State, head: nat, mid: State, boundary: bool, after: State, i: nat)
    requires Finishes(g, q, st, head, mid, boundary, after) && i < |st.order| && i != head
    ensures i < |after.order| && after.order[i] == st.order[i] && st.order[i] in st.nodes
    ensures st.order[i] in after.nodes && after.nodes[st.order[i]] == st.nodes[st.order[i]]
    ensures StatusRight(g, q, st, head, i)
  {
    hide Finishes, Listed, StatusRight, Grows, WithStatus;
    FinishSets(g, q, st, head, mid, boundary, after);
    ListedApart(q, st, i, head);
    WithStatusApart(st, mid, st.order[head],
                    if mid.stopped then BudgetBoundary else if boundary then DepthBoundary else Expanded, i);
  }

  lemma FreshNode(g: Graph, q: Query, st: State, head: nat, mid: State, boundary: bool, after: State, i: nat)
    requires Finishes(g, q, st, head, mid, boundary, after) && |st.order| <= i < |after.order|
    ensures after.StatusOf(after.order[i]) == NotExpanded
  {
    FinishKnows(g, q, st, head, mid, boundary, after);
    SoundListed(g, q, st, head);
    SoundListed(g, q, mid, head);
    NewInOrder(q, st, mid, i);
    ListedApart(q, mid, i, head);
    hide Looked, Run, Sound, Covered, NoRepeats, BelowDepth, Frozen, Listed;
  }

  lemma OtherStatus(g: Graph, q: Query, st: State, head: nat, mid: State, boundary: bool, after: State, i: nat)
    requires Finishes(g, q, st, head, mid, boundary, after) && i < |after.order| && i != head
    ensures StatusRight(g, q, after, head + 1, i)
  {
    hide Covered, Finishes;
    if i < |st.order| {
      OldNode(g, q, st, head, mid, boundary, after, i);
      FinishRuns(g, q, st, head, mid, boundary, after);
      if i < head {
        CoverStays(g, q, st, head, mid, boundary, after, i);
      }
    } else {
      FreshNode(g, q, st, head, mid, boundary, after, i);
      FinishRuns(g, q, st, head, mid, boundary, after);
    }
  }

  lemma FinishRuns(g: Graph, q: Query, st: State, head: nat, mid: State, boundary: bool, after: State)
    requires Finishes(g, q, st, head, mid, boundary, after)
    ensures Run(g, q, st, head) && !st.stopped && head < |st.order| <= |after.order| && after.stopped == mid.stopped
    ensures head < |after.order| && after.order[head] == st.order[head] && after.edges == mid.edges
    ensures after.DepthOf(st.order[head]) == st.DepthOf(st.order[head]) <= q.depth
    ensures q.root in after.nodes && after.reasons == mid.reasons
  {
    FinishKnows(g, q, st, head, mid, boundary, after);
    hide Looked, Sound, StatusesRight, ReasonsRight, BoundariesAtDepth, Frozen, BelowDepth;
  }

  lemma CoverStays(g: Graph, q: Query, st: State, head: nat, mid: State, boundary: bool, after: State, i: nat)
    requires Finishes(g, q, st, head, mid, boundary, after) && i < head
    ensures Covered(g, q, after.edges, st.order[i]) <==> Covered(g, q, st.edges, st.order[i])
  {
    FinishKnows(g, q, st, head, mid, boundary, after);
    hide Exact, AllAnchored, Closed, NoRepeats, Touches;
    if !Covered(g, q, st.edges, st.order[i]) {
      assert StatusRight(g, q, st, head, i);
      assert AtBoundary(st, i);
      assert st.DepthOf(st.order[i]) <= st.DepthOf(st.order[head]);
    }
  }

  lemma FinishedBoundary(g: Graph, q: Query, st: State, head: nat, mid: State, boundary: bool, after: State, i: nat)
    requires Finishes(g, q, st, head, mid, boundary, after) && i < |after.order|
    ensures AtBoundary(after, i) <==> AtBoundary(st, i) || (i == head && boundary && !mid.stopped)
    ensures AtBoundary(after, i) ==> after.DepthOf(after.order[i]) == q.depth
  {
    FinishRuns(g, q, st, head, mid, boundary, after);
    if i == head {
      HeadBoundary(g, q, st, head, mid, boundary, after);
    } else if i < |st.order| {
      OldNode(g, q, st, head, mid, boundary, after, i);
      hide Finishes, Sound, StatusesRight, ReasonsRight, StatusRight;
    } else {
      FreshNode(g, q, st, head, mid, boundary, after, i);
      hide Finishes, Run;
    }
  }

  lemma HeadBoundary(g: Graph, q: Query, st: State, head: nat, mid: State, boundary: bool, after: State)
    requires Finishes(g, q, st, head, mid, boundary, after) && head < |after.order| && head < |st.order|
    ensures !AtBoundary(st, head)
    ensures AtBoundary(after, head) <==> boundary && !mid.stopped
    ensures boundary ==> after.DepthOf(after.order[head]) == q.depth
  {
    FinishKnows(g, q, st, head, mid, boundary, after);
    hide Looked, Sound, Covered, Frozen, BelowDepth;
    assert StatusRight(g, q, st, head, head);
  }

  lemma FinishBoundaries(g: Graph, q: Query, st: State, head: nat, mid: State, boundary: bool, after: State)
    requires Finishes(g, q, st, head, mid, boundary, after)
    ensures BoundariesAtDepth(q, after)
    ensures after.stopped || forall i :: AtBoundary(after, i) <==> AtBoundary(st, i) || (i == head && boundary)
  {
    FinishRuns(g, q, st, head, mid, boundary, after);
    hide Finishes, Run;
    forall i: int ensures AtBoundary(after, i) <==> AtBoundary(st, i) || (i == head && boundary && !mid.stopped)
                  ensures AtBoundary(after, i) ==> after.DepthOf(after.order[i]) == q.depth
    {
      if 0 <= i < |after.order| {
        FinishedBoundary(g, q, st, head, mid, boundary, after, i);
      }
    }
  }

  lemma BoundaryIsNoDeeper(g: Graph, q: Query, st: State, head: nat, i: int)
    requires Run(g, q, st, head) && head < |st.order| && !st.stopped && AtBoundary(st, i)
    ensures q.depth <= st.DepthOf(st.order[head])
  {
    hide Exact, AllAnchored, Closed, NoRepeats, Covered;
    assert StatusRight(g, q, st, head, i);
  }

  lemma ReasonsBefore(g: Graph, q: Query, st: State, head: nat)
    requires Run(g, q, st, head) && head < |st.order| && !st.stopped
    ensures st.reasons == if SomeBoundary(st) then {Depth} else {}
    ensures st.DepthOf(st.order[head]) < q.depth ==> st.reasons == {}
  {
    hide Sound, StatusesRight, BoundariesAtDepth, AtBoundary;
    forall i: int | AtBoundary(st, i) ensures q.depth <= st.DepthOf(st.order[head]) {
      BoundaryIsNoDeeper(g, q, st, head, i);
    }
  }

  ghost predicate SomeBoundary(st: State) {
    exists i :: AtBoundary(st, i)
  }

  lemma BoundaryAdds(st: State, after: State, head: nat, boundary: bool)
    requires forall i :: AtBoundary(after, i) <==> AtBoundary(st, i) || (i == head && boundary)
    ensures SomeBoundary(after) <==> SomeBoundary(st) || boundary
  {
    hide AtBoundary;
    assert AtBoundary(after, head) <==> AtBoundary(st, head) || boundary;
    if SomeBoundary(st) {
      var i :| AtBoundary(st, i);
      assert AtBoundary(after, i);
    }
  }

  lemma FinishReasons(g: Graph, q: Query, st: State, head: nat, mid: State, boundary: bool, after: State)
    requires Finishes(g, q, st, head, mid, boundary, after)
    ensures ReasonsRight(g, q, after, head + 1)
  {
    FinishRuns(g, q, st, head, mid, boundary, after);
    ReasonsBefore(g, q, st, head);
    if mid.stopped {
      StopReasons(g, q, st, head, mid, boundary, after);
    } else {
      FinishBoundaries(g, q, st, head, mid, boundary, after);
      BoundaryAdds(st, after, head, boundary);
      UnstoppedReasons(g, q, st, head, mid, boundary, after);
      hide Finishes, Run, SomeBoundary;
    }
  }

  lemma UnstoppedReasons(g: Graph, q: Query, st: State, head: nat, mid: State, boundary: bool, after: State)
    requires Finishes(g, q, st, head, mid, boundary, after) && !mid.stopped
    ensures after.reasons == if boundary then st.reasons + {Depth} else st.reasons
  {
    hide Looked, Run;
  }

  lemma StopReasons(g: Graph, q: Query, st: State, head: nat, mid: State, boundary: bool, after: State)
    requires Finishes(g, q, st, head, mid, boundary, after) && mid.stopped && head < |st.order|
    ensures ReasonsRight(g, q, after, head + 1)
  {
    FinishRuns(g, q, st, head, mid, boundary, after);
    ReasonsBefore(g, q, st, head);
    var m, distance := st.order[head], st.DepthOf(st.order[head]);
    StopsBelow(g, q, st, head, mid, boundary, after);
    hide Finishes, Run, Judge, Touches;
    assert {} + mid.reasons == mid.reasons;
    var reason :| mid.reasons == {} + {reason} && Cause(g, q, mid, m, distance, reason);
    var column, id :| Touches(g, q, column, id, m) && Judge(g, q, mid, distance, column, id) == Refused(reason);
    StatusKeepsJudge(g, q, mid, m, BudgetBoundary, distance, column, id);
    assert Cause(g, q, after, m, distance, reason);
  }

  lemma StopsBelow(g: Graph, q: Query, st: State, head: nat, mid: State, boundary: bool, after: State)
    requires Finishes(g, q, st, head, mid, boundary, after) && mid.stopped && head < |st.order|
    ensures after == WithStatus(mid, st.order[head], BudgetBoundary)
    ensures st.DepthOf(st.order[head]) < q.depth
    ensures Stopped(g, q, {}, mid, st.order[head], st.DepthOf(st.order[head]))
  {
    FinishKnows(g, q, st, head, mid, boundary, after);
    ReasonsBefore(g, q, st, head);
    hide Looked, Run, Cause;
  }

  lemma StatusKeepsJudge(g: Graph, q: Query, st: State, m: Method, status: Status, distance: nat, column: Column, id: nat)
    requires id < |g.sites|
    ensures Judge(g, q, WithStatus(st, m, status), distance, column, id) == Judge(g, q, st, distance, column, id)
  {
    assert m in st.nodes ==> |st.nodes[m := st.nodes[m].(status := status)]| == |st.nodes| by {
      assert m in st.nodes ==> st.nodes[m := st.nodes[m].(status := status)].Keys == st.nodes.Keys;
    }
  }

  /** Every visit keeps the whole of it, whatever fair adjacency the source hands over. */
  lemma ExpandRuns(g: Graph, q: Query, st: State, head: nat, shown: Shown)
    requires Run(g, q, st, head) && head < |st.order| && !st.stopped && Fair(g, q, st.order[head], shown)
    ensures st.order[head] in st.nodes && Inside(g, shown)
    ensures Run(g, q, Expand(g, q, st, head, shown), head + 1)
  {
    ExpandFinishes(g, q, st, head, shown);
    var (mid, boundary) := VisitColumns(g, q, st, st.DepthOf(st.order[head]), q.Columns(), shown, false);
    var after := Expand(g, q, st, head, shown);
    FinishSound(g, q, st, head, mid, boundary, after);
    FinishStatuses(g, q, st, head, mid, boundary, after);
    FinishBoundaries(g, q, st, head, mid, boundary, after);
    FinishReasons(g, q, st, head, mid, boundary, after);
    FinishRuns(g, q, st, head, mid, boundary, after);
    hide Finishes, Sound, StatusesRight, BoundariesAtDepth, ReasonsRight, Expand, VisitColumns, Fair;
  }

  lemma StartRuns(g: Graph, q: Query)
    requires Start(g, q).Some?
    ensures Run(g, q, Start(g, q).value, 0)
  {
    var st := Start(g, q).value;
    assert st.order == [q.root];
  }

  lemma {:induction false} VisitsRun(g: Graph, q: Query, st: State, head: nat, shown: seq<Shown>, end: State)
    requires Run(g, q, st, head) && Visits(g, q, st, head, shown, end)
    ensures Run(g, q, end, head + |shown|)
    decreases |shown|
  {
    hide Run, Expand, FairIn;
    if shown != [] {
      ExpandRuns(g, q, st, head, shown[0]);
      VisitsRun(g, q, Expand(g, q, st, head, shown[0]), head + 1, shown[1..], end);
    }
  }

  // ---------------------------------------------------------------------------------------
  // What the answer may claim
  // ---------------------------------------------------------------------------------------

  lemma ExploredRuns(g: Graph, q: Query, end: State) returns (last: nat)
    requires Explored(g, q, end)
    ensures Run(g, q, end, last) && (last == |end.order| || end.stopped)
  {
    hide Run, Visits, Start;
    StartRuns(g, q);
    var shown :| Ended(g, q, shown, end);
    VisitsRun(g, q, Start(g, q).value, 0, shown, end);
    last := |shown|;
  }

  /** However the traversal ended, every listed depth is the true distance in the whole graph. */
  lemma DepthsAreDistances(g: Graph, q: Query, end: State, m: Method)
    requires Explored(g, q, end) && m in end.nodes
    ensures var depth := end.nodes[m].depth; depth <= q.depth && AtDistance(g, q, m, depth)
  {
    var last := ExploredRuns(g, q, end);
    hide Explored, AtDistance;
  }

  /** Every listed edge is listed once, between listed nodes, and leaves a node above the depth. */
  lemma EdgesAreAnchored(g: Graph, q: Query, end: State)
    requires Explored(g, q, end)
    ensures AllAnchored(g, q, end) && Listed(q, end)
  {
    var last := ExploredRuns(g, q, end);
    hide Explored, Anchored, NoRepeats;
  }

  /** A call site the query may reach within its depth. */
  ghost predicate Near(g: Graph, q: Query, id: nat) {
    q.depth > 0 && id < |g.sites| && exists column :: column in q.Columns() && Within(g, q, End(g, column, id), q.depth - 1)
  }

  lemma {:induction false} WholeWithin(g: Graph, q: Query, st: State, last: nat, m: Method, hops: nat)
    requires Run(g, q, st, last) && last == |st.order| && !st.stopped && hops <= q.depth && Within(g, q, m, hops)
    ensures m in st.nodes
    decreases hops
  {
    hide Layered, AllAnchored, NoRepeats, Hop, StatusesRight, ReasonsRight, BoundariesAtDepth, Closed, Listed;
    if hops > 0 {
      if Within(g, q, m, hops - 1) {
        WholeWithin(g, q, st, last, m, hops - 1);
      } else {
        var from :| Within(g, q, from, hops - 1) && Hop(g, q, from, m);
        WholeWithin(g, q, st, last, from, hops - 1);
        DistanceIsLeast(g, q, from, st.nodes[from].depth, hops - 1);
        HopWhole(g, q, st, last, from, m);
      }
    }
  }

  lemma AllCovered(g: Graph, q: Query, st: State, last: nat, m: Method)
    requires Run(g, q, st, last) && last == |st.order| && !st.stopped && m in st.nodes && st.DepthOf(m) < q.depth
    ensures Covered(g, q, st.edges, m)
  {
    hide Layered, AllAnchored, NoRepeats, StatusesRight, ReasonsRight, BoundariesAtDepth, Exact, Covered;
    assert m in st.order;
  }

  lemma HopWhole(g: Graph, q: Query, st: State, last: nat, from: Method, m: Method)
    requires Run(g, q, st, last) && last == |st.order| && !st.stopped && Hop(g, q, from, m)
    requires from in st.nodes && st.DepthOf(from) < q.depth
    ensures m in st.nodes
  {
    AllCovered(g, q, st, last, from);
    hide Layered, NoRepeats, StatusesRight, ReasonsRight, BoundariesAtDepth, Exact, Listed, Closed;
    var column, id :| Touches(g, q, column, id, from) && OtherEnd(g, column, id) == m;
    assert Anchored(g, q, st, id);
  }

  lemma NearIsListed(g: Graph, q: Query, st: State, last: nat, id: nat)
    requires Run(g, q, st, last) && last == |st.order| && !st.stopped && Near(g, q, id)
    ensures id in st.edges
  {
    hide Run, Within;
    var column :| column in q.Columns() && Within(g, q, End(g, column, id), q.depth - 1);
    var m := End(g, column, id);
    CloserIsCovered(g, q, st, last, m);
    assert Touches(g, q, column, id, m);
  }

  lemma CloserIsCovered(g: Graph, q: Query, st: State, last: nat, m: Method)
    requires Run(g, q, st, last) && last == |st.order| && !st.stopped && q.depth > 0 && Within(g, q, m, q.depth - 1)
    ensures Covered(g, q, st.edges, m)
  {
    WholeWithin(g, q, st, last, m, q.depth - 1);
    hide Within, Covered, Layered, AllAnchored, Closed, StatusesRight, ReasonsRight, BoundariesAtDepth, NoRepeats;
    DistanceIsLeast(g, q, m, st.nodes[m].depth, q.depth - 1);
    AllCovered(g, q, st, last, m);
  }

  lemma ListedIsNear(g: Graph, q: Query, st: State, last: nat, id: nat)
    requires Run(g, q, st, last) && id in st.edges
    ensures Near(g, q, id)
  {
    hide Layered, Within, NoRepeats, StatusesRight, ReasonsRight, BoundariesAtDepth, Closed;
    assert Anchored(g, q, st, id);
    var column :| column in q.Columns() && st.DepthOf(End(g, column, id)) < q.depth;
    var m := End(g, column, id);
    WithinGrows(g, q, m, st.DepthOf(m), q.depth - 1);
  }

  /** Completeness: a traversal that no budget stopped lists exactly the methods within its depth
      and exactly the call sites of methods closer than that, each once. */
  lemma UnstoppedIsWhole(g: Graph, q: Query, end: State)
    requires Explored(g, q, end) && !end.stopped
    ensures forall m :: m in end.nodes <==> Within(g, q, m, q.depth)
    ensures forall id :: id in end.edges <==> Near(g, q, id)
    ensures NoRepeats(end.edges) && NoRepeats(end.order)
  {
    var last := ExploredRuns(g, q, end);
    EdgesAreAnchored(g, q, end);
    hide Explored, Run, NoRepeats, Within, Near, Anchored;
    forall m ensures m in end.nodes <==> Within(g, q, m, q.depth) {
      if m in end.nodes {
        DepthsAreDistances(g, q, end, m);
        WithinGrows(g, q, m, end.nodes[m].depth, q.depth);
      }
      if Within(g, q, m, q.depth) {
        WholeWithin(g, q, end, last, m, q.depth);
      }
    }
    forall id: nat ensures id in end.edges <==> Near(g, q, id) {
      if id in end.edges {
        ListedIsNear(g, q, end, last, id);
      }
      if Near(g, q, id) {
        NearIsListed(g, q, end, last, id);
      }
    }
  }

  /** A stopped traversal has one reason: a budget refuses a call site of a listed node that
      should be listed too. Otherwise the depth is the only reason there can be. */
  lemma StoppedByOneBudget(g: Graph, q: Query, end: State)
    requires Explored(g, q, end)
    ensures if end.stopped
            then exists m, reason :: m in end.nodes && end.nodes[m].status == BudgetBoundary && end.reasons == {reason}
                                     && Cause(g, q, end, m, end.nodes[m].depth, reason)
            else end.reasons <= {Depth}
  {
    var last := ExploredRuns(g, q, end);
    hide Explored, Cause, AllAnchored, Layered, Exact, Closed, NoRepeats, Covered, BoundariesAtDepth;
    if end.stopped {
      var m := end.order[last - 1];
      var reason :| end.reasons == {} + {reason} && Cause(g, q, end, m, end.DepthOf(m), reason);
      assert StatusRight(g, q, end, last, last - 1);
      assert m in end.nodes && end.reasons == {reason};
    }
  }

  /** What each status tells: an expanded node lacks no call site; a boundary lacks one, either
      because the query goes no deeper or because a budget stopped there; the rest were queued
      when it stopped. */
  lemma StatusTells(g: Graph, q: Query, end: State, m: Method)
    requires Explored(g, q, end) && m in end.nodes
    ensures var node := end.nodes[m];
            match node.status
            case Expanded => Covered(g, q, end.edges, m)
            case DepthBoundary => !Covered(g, q, end.edges, m) && node.depth == q.depth
            case BudgetBoundary => !Covered(g, q, end.edges, m) && end.stopped
            case NotExpanded => end.stopped
  {
    var last := ExploredRuns(g, q, end);
    EdgesAreAnchored(g, q, end);
    hide Explored, Run, NoRepeats;
    var i :| 0 <= i < |end.order| && end.order[i] == m;
    StatusTellsAt(g, q, end, last, i);
  }

  lemma StatusTellsAt(g: Graph, q: Query, end: State, last: nat, i: nat)
    requires Run(g, q, end, last) && (last == |end.order| || end.stopped) && i < |end.order|
    ensures var m := end.order[i];
            match end.StatusOf(m)
            case Expanded => Covered(g, q, end.edges, m)
            case DepthBoundary => !Covered(g, q, end.edges, m) && end.DepthOf(m) == q.depth
            case BudgetBoundary => !Covered(g, q, end.edges, m) && end.stopped
            case NotExpanded => end.stopped
  {
    hide Sound, Covered, Stopped;
    var m := end.order[i];
    assert StatusRight(g, q, end, last, i);
    assert AtBoundary(end, i) ==> end.DepthOf(m) == q.depth;
    if end.StatusOf(m) == BudgetBoundary {
      StopLacks(g, q, end, last);
    }
  }

  lemma StopLacks(g: Graph, q: Query, end: State, last: nat)
    requires end.stopped && ReasonsRight(g, q, end, last)
    ensures !Covered(g, q, end.edges, end.order[last - 1])
  {
    hide Cause, Covered;
    var m := end.order[last - 1];
    var reason :| end.reasons == {} + {reason} && Cause(g, q, end, m, end.DepthOf(m), reason);
    CauseLacks(g, q, end, m, end.DepthOf(m), reason);
  }

  lemma CauseLacks(g: Graph, q: Query, st: State, m: Method, distance: nat, reason: Reason)
    requires Cause(g, q, st, m, distance, reason)
    ensures !Covered(g, q, st.edges, m)
  {
    hide Size;
    var column, id :| Touches(g, q, column, id, m) && Judge(g, q, st, distance, column, id) == Refused(reason);
    assert id !in st.edges;
  }

  lemma {:induction false} CoveredReachesAll(g: Graph, q: Query, st: State, m: Method, hops: nat)
    requires AllAnchored(g, q, st) && q.root in st.nodes && Within(g, q, m, hops)
    requires forall k :: k in st.nodes ==> Covered(g, q, st.edges, k)
    ensures m in st.nodes
    decreases hops
  {
    hide NoRepeats, Hop, Covered, Anchored;
    if hops > 0 {
      if Within(g, q, m, hops - 1) {
        CoveredReachesAll(g, q, st, m, hops - 1);
      } else {
        var from :| Within(g, q, from, hops - 1) && Hop(g, q, from, m);
        CoveredReachesAll(g, q, st, from, hops - 1);
        CoveredHop(g, q, st, from, m);
      }
    }
  }

  lemma CoveredHop(g: Graph, q: Query, st: State, from: Method, m: Method)
    requires AllAnchored(g, q, st) && Hop(g, q, from, m) && Covered(g, q, st.edges, from)
    ensures m in st.nodes
  {
    hide NoRepeats;
    var column, id :| Touches(g, q, column, id, from) && OtherEnd(g, column, id) == m;
    assert Anchored(g, q, st, id);
  }

  /** No reason at all means nothing is missing, however deep: every listed method lacks no call
      site, so everything reachable is listed. And if nothing is missing there is no reason. */
  lemma NoReasonIsEverything(g: Graph, q: Query, end: State)
    requires Explored(g, q, end)
    ensures end.reasons == {} <==> forall m :: m in end.nodes ==> Covered(g, q, end.edges, m)
    ensures end.reasons == {} ==> forall m, hops: nat :: Within(g, q, m, hops) ==> m in end.nodes
  {
    var last := ExploredRuns(g, q, end);
    hide Explored, Anchored, Layered, Exact, Closed, NoRepeats, Covered, Stopped, StatusRight;
    if end.reasons == {} {
      NoReasonNoBoundary(g, q, end, last);
      forall m | m in end.nodes ensures Covered(g, q, end.edges, m) {
        StatusTells(g, q, end, m);
        var i :| 0 <= i < |end.order| && end.order[i] == m;
        assert !AtBoundary(end, i);
      }
      forall m, hops: nat | Within(g, q, m, hops) ensures m in end.nodes {
        CoveredReachesAll(g, q, end, m, hops);
      }
    } else if end.stopped {
      StopLacks(g, q, end, last);
      assert end.order[last - 1] in end.nodes;
    } else {
      var i :| AtBoundary(end, i);
      StatusTells(g, q, end, end.order[i]);
    }
  }

  lemma NoReasonNoBoundary(g: Graph, q: Query, end: State, last: nat)
    requires ReasonsRight(g, q, end, last) && end.reasons == {}
    ensures !end.stopped && !SomeBoundary(end)
  {
    hide Cause, AtBoundary;
    assert end.stopped ==> exists reason :: reason in end.reasons;
  }

  // ---------------------------------------------------------------------------------------
  // The byte account
  // ---------------------------------------------------------------------------------------

  function NodeBytes(g: Graph, q: Query, st: State, order: seq<Method>): nat {
    if order == [] then 0
    else var last := |order| - 1;
         NodeBytes(g, q, st, order[..last]) + q.costs.node(NewNode(g, order[last], st.DepthOf(order[last])))
  }

  function EdgeBytes(g: Graph, q: Query, edges: seq<nat>): nat {
    if edges == [] then 0
    else var last := |edges| - 1;
         EdgeBytes(g, q, edges[..last]) + if edges[last] < |g.sites| then q.costs.edge(Row(g, edges[last])) else 0
  }

  /** The account is the reserve, every node as it was listed and every edge, within the budget. */
  ghost predicate Accounted(g: Graph, q: Query, st: State) {
    && st.used == 4096 + NodeBytes(g, q, st, st.order) + EdgeBytes(g, q, st.edges)
    && st.used <= MAX_GRAPH_BYTES
    && (forall m :: m in st.order ==> m in st.nodes)
  }

  lemma {:induction false} NodeBytesAlike(g: Graph, q: Query, st: State, after: State, order: seq<Method>)
    requires forall m :: m in order ==> st.DepthOf(m) == after.DepthOf(m)
    ensures NodeBytes(g, q, st, order) == NodeBytes(g, q, after, order)
  {
    if order != [] {
      NodeBytesAlike(g, q, st, after, order[..|order| - 1]);
    }
  }

  lemma EdgeBytesAppend(g: Graph, q: Query, edges: seq<nat>, id: nat)
    requires id < |g.sites|
    ensures EdgeBytes(g, q, edges + [id]) == EdgeBytes(g, q, edges) + q.costs.edge(Row(g, id))
  {
    assert (edges + [id])[..|edges|] == edges;
  }

  lemma NodeBytesAppend(g: Graph, q: Query, st: State, after: State, m: Method, distance: nat)
    requires forall k :: k in st.order ==> st.DepthOf(k) == after.DepthOf(k)
    requires after.DepthOf(m) == distance
    ensures NodeBytes(g, q, after, st.order + [m]) ==
            NodeBytes(g, q, st, st.order) + q.costs.node(NewNode(g, m, distance))
  {
    assert (st.order + [m])[..|st.order|] == st.order;
    NodeBytesAlike(g, q, st, after, st.order);
  }

  lemma TakeAccounted(g: Graph, q: Query, st: State, distance: nat, column: Column, id: nat)
    requires id < |g.sites| && Accounted(g, q, st) && Judge(g, q, st, distance, column, id) == Accepted
    ensures Accounted(g, q, Take(g, q, st, distance, column, id))
  {
    hide NodeBytes, EdgeBytes;
    var other := OtherEnd(g, column, id);
    var after := Take(g, q, st, distance, column, id);
    EdgeBytesAppend(g, q, st.edges, id);
    if other in st.nodes {
      NodeBytesAlike(g, q, st, after, st.order);
    } else {
      assert other !in st.order;
      NodeBytesAppend(g, q, st, after, other, distance + 1);
    }
  }

  lemma {:induction false} ColumnAccounted(g: Graph, q: Query, st: State, distance: nat, column: Column, ids: seq<nat>)
    requires forall i :: 0 <= i < |ids| ==> ids[i] < |g.sites|
    requires Accounted(g, q, st)
    ensures Accounted(g, q, VisitColumn(g, q, st, distance, column, ids).0)
    decreases |ids|
  {
    hide Take, Judge, Accounted;
    if ids != [] {
      var after := VisitEdge(g, q, st, distance, column, ids[0]).0;
      if Judge(g, q, st, distance, column, ids[0]) == Accepted {
        TakeAccounted(g, q, st, distance, column, ids[0]);
      } else {
        SameAccount(g, q, st, after);
      }
      ColumnAccounted(g, q, after, distance, column, ids[1..]);
    }
  }

  lemma SameAccount(g: Graph, q: Query, st: State, after: State)
    requires Accounted(g, q, st) && after.order == st.order && after.edges == st.edges && after.used == st.used
    requires after.nodes.Keys == st.nodes.Keys && forall m :: m in st.nodes ==> after.nodes[m].depth == st.nodes[m].depth
    ensures Accounted(g, q, after)
  {
    NodeBytesAlike(g, q, st, after, st.order);
  }

  lemma {:induction false} ColumnsAccounted(g: Graph, q: Query, st: State, distance: nat, columns: seq<Column>, shown: Shown,
                                            before: bool)
    requires Accounted(g, q, st) && Inside(g, shown)
    ensures Accounted(g, q, VisitColumns(g, q, st, distance, columns, shown, before).0)
    decreases |columns|
  {
    hide VisitColumn, Accounted;
    if columns != [] {
      var ids := shown.In(columns[0]);
      ColumnAccounted(g, q, st, distance, columns[0], ids);
      var (mid, flow) := VisitColumn(g, q, st, distance, columns[0], ids);
      if flow != Stop {
        ColumnsAccounted(g, q, mid, distance, columns[1..], shown, before || flow == Boundary);
      }
    }
  }

  lemma ExpandAccounted(g: Graph, q: Query, st: State, head: nat, shown: Shown)
    requires Accounted(g, q, st) && head < |st.order| && st.order[head] in st.nodes && Inside(g, shown)
    ensures Accounted(g, q, Expand(g, q, st, head, shown))
  {
    hide VisitColumns, Accounted;
    var distance := st.nodes[st.order[head]].depth;
    ColumnsAccounted(g, q, st, distance, q.Columns(), shown, false);
    SameAccount(g, q, VisitColumns(g, q, st, distance, q.Columns(), shown, false).0, Expand(g, q, st, head, shown));
  }

  lemma {:induction false} VisitsAccounted(g: Graph, q: Query, st: State, head: nat, shown: seq<Shown>, end: State)
    requires Accounted(g, q, st) && Visits(g, q, st, head, shown, end)
    ensures Accounted(g, q, end)
    decreases |shown|
  {
    hide Expand, Accounted, FairIn;
    if shown != [] {
      ExpandAccounted(g, q, st, head, shown[0]);
      VisitsAccounted(g, q, Expand(g, q, st, head, shown[0]), head + 1, shown[1..], end);
    }
  }

  lemma ExploreAccounted(g: Graph, q: Query, end: State)
    requires Explored(g, q, end)
    ensures Accounted(g, q, end)
  {
    hide Visits;
    var st := Start(g, q).value;
    assert NodeBytes(g, q, st, [q.root]) == NodeBytes(g, q, st, []) + q.costs.node(NewNode(g, q.root, 0)) by {
      assert [q.root][..0] == [];
    }
    var shown :| Ended(g, q, shown, end);
    VisitsAccounted(g, q, st, 0, shown, end);
  }
}
