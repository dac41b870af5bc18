/** Bounded breadth-first exploration of call sites, as a function of the graph: what each
    budget does to one edge, one column, one node and the whole traversal. */
module CallGraph {
  import opened Bytes

  /** A method descriptor, interned. */
  type Method = nat

  /** One declared call site; its identity is its position in index order. */
  datatype Site = Site(caller: Method, callee: Method, address: nat, opcode: nat)

  datatype Definition = Definition(entry: nat, without: bool)

  /** A call site without a target in the bytecode. */
  datatype Diagnostic = Diagnostic(address: nat, opcode: nat)

  datatype Graph = Graph(sites: seq<Site>, definitions: map<Method, Definition>, dynamics: map<Method, seq<Diagnostic>>)
  {
    function Definition(m: Method): Option<Definition> {
      if m in definitions then Some(definitions[m]) else None
    }

    function Dynamics(m: Method): seq<Diagnostic> {
      if m in dynamics then dynamics[m] else []
    }
  }

  /** A call site is known by where it stands: no two share a caller and an address. */
  ghost predicate Addressed(g: Graph) {
    forall i, j :: 0 <= i < j < |g.sites| ==>
      g.sites[i].caller != g.sites[j].caller || g.sites[i].address != g.sites[j].address
  }

  datatype Direction = Outgoing | Incoming | Both

  datatype Column = Source | Target

  datatype Status = NotExpanded | Expanded | DepthBoundary | BudgetBoundary

  datatype Node = Node(name: Method, depth: nat, definition: Option<Definition>, status: Status)

  datatype EdgeRow = EdgeRow(site: Site, target: Option<Definition>)

  /** The encoded sizes, separators included. */
  datatype Costs = Costs(node: Node -> nat, edge: EdgeRow -> nat, diagnostic: Diagnostic -> nat)

  datatype Query = Query(root: Method, direction: Direction, depth: nat, maxNodes: nat, maxEdges: nat, costs: Costs)
  {
    function Columns(): seq<Column> {
      match direction
      case Both => [Source, Target]
      case Outgoing => [Source]
      case Incoming => [Target]
    }
  }

  datatype Reason = Depth | MaxEdges | MaxNodes | OutputBytes

  const MAX_GRAPH_BYTES := 131072

  // ---------------------------------------------------------------------------------------
  // The traversal
  // ---------------------------------------------------------------------------------------

  /** The dictionary of nodes in insertion order, the edges taken, and why any were left. The
      queue is always the part of the order not yet visited. */
  datatype State = State(order: seq<Method>, nodes: map<Method, Node>, edges: seq<nat>, reasons: set<Reason>,
                         used: nat, stopped: bool)
  {
    function DepthOf(m: Method): nat {
      if m in nodes then nodes[m].depth else 0
    }

    function StatusOf(m: Method): Status {
      if m in nodes then nodes[m].status else NotExpanded
    }
  }

  /** The end of a column that still has a match. */
  function End(g: Graph, column: Column, id: nat): Method
    requires id < |g.sites|
  {
    if column == Source then g.sites[id].caller else g.sites[id].callee
  }

  function OtherEnd(g: Graph, column: Column, id: nat): Method
    requires id < |g.sites|
  {
    if column == Source then g.sites[id].callee else g.sites[id].caller
  }

  /** At most `limit` of the call sites from `id` on whose end in the column is `m`, in order. */
  function Matching(g: Graph, column: Column, m: Method, id: nat, limit: nat): (r: seq<nat>)
    requires id <= |g.sites|
    ensures |r| <= limit
    ensures forall i :: 0 <= i < |r| ==> id <= r[i] < |g.sites| && End(g, column, r[i]) == m
    ensures forall i, j :: 0 <= i < j < |r| ==> r[i] < r[j]
    decreases |g.sites| - id
  {
    if limit == 0 || id == |g.sites| then []
    else if End(g, column, id) == m then [id] + Matching(g, column, m, id + 1, limit - 1)
    else Matching(g, column, m, id + 1, limit)
  }

  /** The adjacency of a node, cut one above the edge budget. */
  function Adjacent(g: Graph, q: Query, column: Column, m: Method): seq<nat> {
    Matching(g, column, m, 0, q.maxEdges + 1)
  }

  /** What a source hands over for a node: for each end, call sites of that end in some order. */
  datatype Shown = Shown(source: seq<nat>, target: seq<nat>)
  {
    function In(column: Column): seq<nat> {
      if column == Source then source else target
    }
  }

  predicate Inside(g: Graph, shown: Shown) {
    && (forall i :: 0 <= i < |shown.source| ==> shown.source[i] < |g.sites|)
    && forall i :: 0 <= i < |shown.target| ==> shown.target[i] < |g.sites|
  }

  /** What the index hands over: both cut adjacencies in index order. */
  function IndexShown(g: Graph, q: Query, m: Method): (r: Shown)
    ensures Inside(g, r) && forall column :: r.In(column) == Adjacent(g, q, column, m)
  {
    Shown(Adjacent(g, q, Source, m), Adjacent(g, q, Target, m))
  }

  function NewNode(g: Graph, m: Method, depth: nat): Node {
    Node(m, depth, g.Definition(m), NotExpanded)
  }

  function Row(g: Graph, id: nat): EdgeRow
    requires id < |g.sites|
  {
    EdgeRow(g.sites[id], g.Definition(g.sites[id].callee))
  }

  datatype Verdict = Seen | AtDepth | Refused(reason: Reason) | Accepted

  /** The encoded size of what an adjacent edge would add: its row, and its other end if new. */
  function Size(g: Graph, q: Query, st: State, distance: nat, column: Column, id: nat): nat
    requires id < |g.sites|
  {
    var other := OtherEnd(g, column, id);
    (if other in st.nodes then 0 else q.costs.node(NewNode(g, other, distance + 1))) + q.costs.edge(Row(g, id))
  }

  /** The budgets, in the order they are tried on an adjacent edge. */
  function Judge(g: Graph, q: Query, st: State, distance: nat, column: Column, id: nat): Verdict
    requires id < |g.sites|
  {
    if id in st.edges then Seen
    else if distance == q.depth then AtDepth
    else if |st.edges| == q.maxEdges then Refused(MaxEdges)
    else if OtherEnd(g, column, id) !in st.nodes && |st.nodes| == q.maxNodes then Refused(MaxNodes)
    else if st.used + Size(g, q, st, distance, column, id) > MAX_GRAPH_BYTES then Refused(OutputBytes)
    else Accepted
  }

  /** Record the edge, and its other end behind everything queued if it is new. */
  function Take(g: Graph, q: Query, st: State, distance: nat, column: Column, id: nat): State
    requires id < |g.sites|
  {
    var other := OtherEnd(g, column, id);
    var taken := st.(edges := st.edges + [id], used := st.used + Size(g, q, st, distance, column, id));
    if other in st.nodes then taken
    else taken.(order := st.order + [other], nodes := st.nodes[other := NewNode(g, other, distance + 1)])
  }

  datatype Flow = Next | Boundary | Stop

  /** One adjacent edge of the current node. */
  function VisitEdge(g: Graph, q: Query, st: State, distance: nat, column: Column, id: nat): (State, Flow)
    requires id < |g.sites|
  {
    match Judge(g, q, st, distance, column, id)
    case Seen => (st, Next)
    case AtDepth => (st.(reasons := st.reasons + {Depth}), Boundary)
    case Refused(reason) => (st.(reasons := st.reasons + {reason}, stopped := true), Stop)
    case Accepted => (Take(g, q, st, distance, column, id), Next)
  }

  /** The edges of one column, up to a boundary or a stop. */
  function VisitColumn(g: Graph, q: Query, st: State, distance: nat, column: Column, ids: seq<nat>): (State, Flow)
    requires forall i :: 0 <= i < |ids| ==> ids[i] < |g.sites|
    decreases |ids|
  {
    if ids == [] then (st, Next)
    else
      var (after, flow) := VisitEdge(g, q, st, distance, column, ids[0]);
      if flow == Next then VisitColumn(g, q, after, distance, column, ids[1..]) else (after, flow)
  }

  /** The columns of one node; only a stop keeps a later column from being tried. */
  function VisitColumns(g: Graph, q: Query, st: State, distance: nat, columns: seq<Column>, shown: Shown, boundary: bool)
    : (State, bool)
    requires Inside(g, shown)
    decreases |columns|
  {
    if columns == [] then (st, boundary)
    else
      var (after, flow) := VisitColumn(g, q, st, distance, columns[0], shown.In(columns[0]));
      if flow == Stop then (after, boundary)
      else VisitColumns(g, q, after, distance, columns[1..], shown, boundary || flow == Boundary)
  }

  /** Take one node from the queue, with what a source hands over for it. */
  function Expand(g: Graph, q: Query, st: State, head: nat, shown: Shown): State
    requires head < |st.order| && st.order[head] in st.nodes && Inside(g, shown)
  {
    var m := st.order[head];
    var (after, boundary) := VisitColumns(g, q, st, st.nodes[m].depth, q.Columns(), shown, false);
    if m !in after.nodes then after
    else
      var status := if after.stopped then BudgetBoundary else if boundary then DepthBoundary else Expanded;
      after.(nodes := after.nodes[m := after.nodes[m].(status := status)])
  }

  // ---------------------------------------------------------------------------------------
  // What may be listed
  // ---------------------------------------------------------------------------------------

  ghost predicate NoRepeats(s: seq<nat>) {
    forall i, j :: 0 <= i < j < |s| ==> s[i] != s[j]
  }

  /** The dictionary lists what it holds, each once; every node but the root brought an edge. */
  ghost predicate Listed(q: Query, st: State) {
    && (forall m :: m in st.nodes <==> m in st.order)
    && NoRepeats(st.order)
    && (forall m :: m in st.nodes ==> st.nodes[m].name == m)
    && 0 < |st.order| <= |st.edges| + 1 <= q.maxEdges + 1
    && (q.maxNodes > 0 ==> |st.order| <= q.maxNodes)
  }

  ghost function Elements(s: seq<nat>): (r: set<nat>)
    ensures forall x :: x in r <==> x in s
  {
    set x | x in s
  }

  lemma {:induction false} DistinctCount(s: seq<nat>)
    requires NoRepeats(s)
    ensures |Elements(s)| == |s|
  {
    if s != [] {
      var last := |s| - 1;
      DistinctCount(s[..last]);
      assert s == s[..last] + [s[last]];
      assert Elements(s) == Elements(s[..last]) + {s[last]};
    } else {
      assert Elements(s) == {};
    }
  }

  lemma OrderCountsNodes(q: Query, st: State)
    requires Listed(q, st)
    ensures |st.nodes| == |st.order|
  {
    assert st.nodes.Keys == Elements(st.order);
    DistinctCount(st.order);
  }

  lemma NoRepeatsAppend(s: seq<nat>, x: nat)
    requires NoRepeats(s) && x !in s
    ensures NoRepeats(s + [x])
  {
    assert forall i :: 0 <= i < |s| ==> s[i] != x;
  }

  lemma TakeListed(g: Graph, q: Query, st: State, distance: nat, column: Column, id: nat)
    requires id < |g.sites| && Listed(q, st) && Judge(g, q, st, distance, column, id) == Accepted
    requires |st.edges| <= q.maxEdges
    ensures Listed(q, Take(g, q, st, distance, column, id))
  {
    hide NoRepeats;
    var other := OtherEnd(g, column, id);
    if other !in st.nodes {
      OrderCountsNodes(q, st);
      NoRepeatsAppend(st.order, other);
    }
  }

  lemma {:induction false} VisitColumnListed(g: Graph, q: Query, st: State, distance: nat, column: Column, ids: seq<nat>)
    requires forall i :: 0 <= i < |ids| ==> ids[i] < |g.sites|
    requires Listed(q, st)
    ensures Listed(q, VisitColumn(g, q, st, distance, column, ids).0)
    decreases |ids|
  {
    hide Listed, Take, Size;
    if ids != [] {
      VisitEdgeListed(g, q, st, distance, column, ids[0]);
      VisitColumnListed(g, q, VisitEdge(g, q, st, distance, column, ids[0]).0, distance, column, ids[1..]);
    }
  }

  lemma VisitEdgeListed(g: Graph, q: Query, st: State, distance: nat, column: Column, id: nat)
    requires id < |g.sites| && Listed(q, st)
    ensures Listed(q, VisitEdge(g, q, st, distance, column, id).0)
  {
    hide NoRepeats, Take, Size;
    if Judge(g, q, st, distance, column, id) == Accepted {
      TakeListed(g, q, st, distance, column, id);
    }
  }

  lemma {:induction false} VisitColumnsListed(g: Graph, q: Query, st: State, distance: nat, columns: seq<Column>,
                                              shown: Shown, boundary: bool)
    requires Listed(q, st) && Inside(g, shown)
    ensures Listed(q, VisitColumns(g, q, st, distance, columns, shown, boundary).0)
    decreases |columns|
  {
    hide Listed, VisitColumn;
    if columns != [] {
      var ids := shown.In(columns[0]);
      VisitColumnListed(g, q, st, distance, columns[0], ids);
      var (after, flow) := VisitColumn(g, q, st, distance, columns[0], ids);
      if flow != Stop {
        VisitColumnsListed(g, q, after, distance, columns[1..], shown, boundary || flow == Boundary);
      }
    }
  }

  lemma ExpandListed(g: Graph, q: Query, st: State, head: nat, shown: Shown)
    requires Listed(q, st) && head < |st.order| && Inside(g, shown)
    ensures Listed(q, Expand(g, q, st, head, shown))
  {
    hide VisitColumns, NoRepeats, Inside;
    var m := st.order[head];
    VisitColumnsListed(g, q, st, st.nodes[m].depth, q.Columns(), shown, false);
  }

  /** Over the index, visit the nodes from `head` on until the queue is empty or a budget stops it. */
  function Traverse(g: Graph, q: Query, st: State, head: nat): State
    requires Listed(q, st)
    decreases q.maxEdges + 1 - head
  {
    if head >= |st.order| || st.stopped then st
    else
      var shown := IndexShown(g, q, st.order[head]);
      ExpandListed(g, q, st, head, shown);
      Traverse(g, q, Expand(g, q, st, head, shown), head + 1)
  }

  /** The root alone, or nothing when it does not fit. */
  function Start(g: Graph, q: Query): Option<State> {
    var node := NewNode(g, q.root, 0);
    var used := 4096 + q.costs.node(node);
    if used > MAX_GRAPH_BYTES then None
    else Some(State([q.root], map[q.root := node], [], {}, used, false))
  }

  lemma StartListed(g: Graph, q: Query)
    ensures Start(g, q).Some? ==> Listed(q, Start(g, q).value)
  {
  }

  /** The whole traversal over the index. */
  function Explore(g: Graph, q: Query): Option<State> {
    StartListed(g, q);
    match Start(g, q)
    case None => None
    case Some(st) => Some(Traverse(g, q, st, 0))
  }

  /** A method the query may start from: defined in the input, or called by it. */
  predicate Known(g: Graph, m: Method) {
    m in g.definitions || exists id :: 0 <= id < |g.sites| && g.sites[id].callee == m
  }

  // ---------------------------------------------------------------------------------------
  // Any source
  // ---------------------------------------------------------------------------------------

  ghost predicate Touches(g: Graph, q: Query, column: Column, id: nat, m: Method) {
    column in q.Columns() && id < |g.sites| && End(g, column, id) == m
  }

  /** What may stand for the adjacency of a method: call sites with that end, each once, in any
      order, and all there are unless there are more than the edge budget. */
  ghost predicate FairIn(g: Graph, q: Query, column: Column, m: Method, ids: seq<nat>) {
    && NoRepeats(ids)
    && (forall i :: 0 <= i < |ids| ==> Touches(g, q, column, ids[i], m))
    && (|ids| <= q.maxEdges ==> forall id :: Touches(g, q, column, id, m) ==> id in ids)
  }

  ghost predicate Fair(g: Graph, q: Query, m: Method, shown: Shown) {
    Inside(g, shown) && forall column :: column in q.Columns() ==> FairIn(g, q, column, m, shown.In(column))
  }

  /** Visiting one node after the other from `head` on, each with something fair, leads to `end`. */
  ghost predicate Visits(g: Graph, q: Query, st: State, head: nat, shown: seq<Shown>, end: State)
    decreases |shown|
  {
    if shown == [] then end == st
    else
      && head < |st.order| && !st.stopped && st.order[head] in st.nodes && Fair(g, q, st.order[head], shown[0])
      && Visits(g, q, Expand(g, q, st, head, shown[0]), head + 1, shown[1..], end)
  }

  /** A traversal that has ended, over a source that is fair. */
  ghost predicate Explored(g: Graph, q: Query, end: State) {
    Start(g, q).Some? && exists shown :: Ended(g, q, shown, end)
  }

  ghost predicate Ended(g: Graph, q: Query, shown: seq<Shown>, end: State)
    requires Start(g, q).Some?
  {
    Visits(g, q, Start(g, q).value, 0, shown, end) && (end.stopped || |shown| == |end.order|)
  }

  lemma {:induction false} VisitsAppend(g: Graph, q: Query, st: State, head: nat, before: seq<Shown>, mid: State, shown: Shown)
    requires Visits(g, q, st, head, before, mid)
    requires var next := head + |before|;
             next < |mid.order| && !mid.stopped && mid.order[next] in mid.nodes && Fair(g, q, mid.order[next], shown)
    ensures Visits(g, q, st, head, before + [shown], Expand(g, q, mid, head + |before|, shown))
    decreases |before|
  {
    hide FairIn, Expand;
    var all := before + [shown];
    if before == [] {
      assert all[0] == shown && all[1..] == [];
    } else {
      assert all[0] == before[0] && all[1..] == before[1..] + [shown];
      VisitsAppend(g, q, Expand(g, q, st, head, before[0]), head + 1, before[1..], mid, shown);
    }
  }

  lemma {:induction false} ShortMatchingIsWhole(g: Graph, column: Column, m: Method, from: nat, limit: nat, id: nat)
    requires from <= id < |g.sites| && End(g, column, id) == m && |Matching(g, column, m, from, limit)| < limit
    ensures id in Matching(g, column, m, from, limit)
    decreases |g.sites| - from
  {
    var rest := if End(g, column, from) == m then limit - 1 else limit;
    if from < id {
      ShortMatchingIsWhole(g, column, m, from + 1, rest, id);
    } else {
      assert Matching(g, column, m, from, limit)[0] == id;
    }
  }

  /** The index is fair. */
  lemma IndexIsFair(g: Graph, q: Query, m: Method)
    ensures Fair(g, q, m, IndexShown(g, q, m))
  {
    forall column | column in q.Columns()
      ensures FairIn(g, q, column, m, Adjacent(g, q, column, m))
    {
      var ids := Adjacent(g, q, column, m);
      if |ids| <= q.maxEdges {
        forall id | Touches(g, q, column, id, m) ensures id in ids {
          ShortMatchingIsWhole(g, column, m, 0, q.maxEdges + 1, id);
        }
      }
    }
  }

  lemma {:induction false} TraverseVisits(g: Graph, q: Query, st: State, head: nat) returns (shown: seq<Shown>)
    requires Listed(q, st) && head <= |st.order|
    ensures var end := Traverse(g, q, st, head);
            Visits(g, q, st, head, shown, end) && (end.stopped || head + |shown| == |end.order|)
    decreases q.maxEdges + 1 - head
  {
    hide NoRepeats, Fair, IndexShown, Expand;
    if head >= |st.order| || st.stopped {
      shown := [];
    } else {
      var first := IndexShown(g, q, st.order[head]);
      IndexIsFair(g, q, st.order[head]);
      ExpandListed(g, q, st, head, first);
      ExpandKeepsOrder(g, q, st, head, first);
      var rest := TraverseVisits(g, q, Expand(g, q, st, head, first), head + 1);
      shown := [first] + rest;
      assert shown[1..] == rest;
    }
  }

  lemma {:induction false} ColumnKeepsOrder(g: Graph, q: Query, st: State, distance: nat, column: Column, ids: seq<nat>)
    requires forall i :: 0 <= i < |ids| ==> ids[i] < |g.sites|
    ensures st.order <= VisitColumn(g, q, st, distance, column, ids).0.order
    decreases |ids|
  {
    hide Judge, Size;
    if ids != [] {
      ColumnKeepsOrder(g, q, VisitEdge(g, q, st, distance, column, ids[0]).0, distance, column, ids[1..]);
    }
  }

  lemma {:induction false} ColumnsKeepOrder(g: Graph, q: Query, st: State, distance: nat, columns: seq<Column>, shown: Shown,
                                            boundary: bool)
    requires Inside(g, shown)
    ensures st.order <= VisitColumns(g, q, st, distance, columns, shown, boundary).0.order
    decreases |columns|
  {
    hide VisitColumn;
    if columns != [] {
      ColumnKeepsOrder(g, q, st, distance, columns[0], shown.In(columns[0]));
      var (after, flow) := VisitColumn(g, q, st, distance, columns[0], shown.In(columns[0]));
      if flow != Stop {
        ColumnsKeepOrder(g, q, after, distance, columns[1..], shown, boundary || flow == Boundary);
      }
    }
  }

  lemma ExpandKeepsOrder(g: Graph, q: Query, st: State, head: nat, shown: Shown)
    requires head < |st.order| && st.order[head] in st.nodes && Inside(g, shown)
    ensures st.order <= Expand(g, q, st, head, shown).order
  {
    hide VisitColumns;
    ColumnsKeepOrder(g, q, st, st.nodes[st.order[head]].depth, q.Columns(), shown, false);
  }

  /** The traversal over the index is one over a fair source. */
  lemma ExploreIsExplored(g: Graph, q: Query)
    requires Explore(g, q).Some?
    ensures Explored(g, q, Explore(g, q).value)
  {
    hide Traverse, Listed, Visits;
    StartListed(g, q);
    var shown := TraverseVisits(g, q, Start(g, q).value, 0);
    assert Ended(g, q, shown, Explore(g, q).value);
  }
}
