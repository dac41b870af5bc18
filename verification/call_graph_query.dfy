/** The query as it runs, over the index or over the rescanning source. */
module CallGraphQuery {
  import opened Bytes
  import Sorting
  import opened CallGraph
  import opened CallSites
  import opened CallGraphTruth
  import opened FrontierScans
  import opened CallGraphAnswers
  import opened FrontierRuns
  import opened FrontierGraphs

  // ---------------------------------------------------------------------------------------
  // The running query
  // ---------------------------------------------------------------------------------------

  /** The keys seen stand for the edges taken. */
  ghost predicate KeysOf(g: Graph, indexed: bool, seen: set<Key>, ids: seq<nat>) {
    && (forall i :: 0 <= i < |ids| ==> ids[i] < |g.sites|)
    && forall id :: 0 <= id < |g.sites| ==> (KeyOf(g, indexed, id) in seen <==> id in ids)
  }

  lemma KeysAppend(g: Graph, indexed: bool, seen: set<Key>, ids: seq<nat>, id: nat)
    requires KeysOf(g, indexed, seen, ids) && id < |g.sites| && (indexed || Addressed(g))
    ensures KeysOf(g, indexed, seen + {KeyOf(g, indexed, id)}, ids + [id])
  {
    assert forall k :: k in ids + [id] <==> k in ids || k == id;
  }

  class Explorer {
    const g: Graph
    const q: Query
    const source: FrontierGraph?
    var order: seq<Method>
    var nodes: map<Method, Node>
    var queue: seq<Method>
    var edges: seq<EdgeRow>
    var seen: set<Key>
    var reasons: set<Reason>
    var used: nat
    var stopped: bool
    ghost var ids: seq<nat>
    /** The frontiers that were at hand when methods were taken, over a source that has them. */
    ghost var frontiers: seq<Held>

    constructor (g: Graph, q: Query, source: FrontierGraph?)
      ensures this.g == g && this.q == q && this.source == source
      ensures Value() == State([], map[], [], {}, 4096, false) && queue == [] && frontiers == [] && Tracks()
    {
      this.g, this.q, this.source := g, q, source;
      order, nodes, queue, edges, seen, ids, frontiers := [], map[], [], [], {}, [], [];
      reasons, used, stopped := {}, 4096, false;
    }

    ghost function Value(): State
      reads this
    {
      State(order, nodes, ids, reasons, used, stopped)
    }

    function Indexed(): bool {
      source == null
    }

    ghost predicate Tracks()
      reads this`seen, this`ids, this`edges
    {
      KeysOf(g, Indexed(), seen, ids) && edges == RowsOf(g, ids)
    }

    /** The queue is the part of the order not yet taken. */
    ghost predicate Queued(head: nat)
      reads this`order, this`queue
    {
      head <= |order| && queue == order[head..]
    }

    /** The source answers for the listed methods. */
    ghost predicate SourceReady()
      reads this`nodes, source
    {
      source != null ==>
        && source.s.g == g && source.s.q == q && source.Valid() && GraphOf(g, source.s.program) && Coded(g)
        && (forall m :: m in nodes ==> m in source.visited)
    }

    /** As long as no budget stops it, what was visited is what is listed. */
    ghost predicate Counted()
      reads this`nodes, this`stopped, source
    {
      source != null && !stopped ==> source.visited == nodes.Keys
    }

    /** The source has some frontier at hand. */
    ghost predicate AtSome()
      reads source
    {
      source != null ==> source.frontier.Some?
    }

    /** The source has the method at hand. */
    ghost predicate AtHand(m: Method)
      reads source
    {
      source != null ==> source.frontier.Some? && m in source.frontier.value
    }

    /** What the source hands over for a method: the index its cut adjacency in index order, the other
        what the scan for the frontier at hand kept. */
    ghost function ShownFor(m: Method): (r: Shown)
      requires SourceReady() && AtHand(m)
      reads this`nodes, source
      ensures Inside(g, r)
    {
      if source == null then IndexShown(g, q, m) else source.s.Handed(source.AtHand().value, m)
    }

    /** How far the run over the rescanning source has come. */
    ghost function Now(): Progress
      requires source != null && AtSome()
      reads this, source
    {
      Progress(Value(), source.AtHand().value, frontiers)
    }

    /** What the source holds for the frontier is as it was. */
    twostate predicate SourceKept()
      reads source
    {
      source != null ==>
        && unchanged(source`metadata) && unchanged(source`adjacency) && unchanged(source`frontier)
        && unchanged(source`columns) && unchanged(source`before)
    }

    /** Whether rows of this encoded size fit; they are then charged. */
    method Fits(size: nat) returns (ok: bool)
      modifies this`used, this`reasons
      ensures ok <==> old(used) + size <= MAX_GRAPH_BYTES
      ensures used == (if ok then old(used) + size else old(used))
      ensures reasons == if ok then old(reasons) else old(reasons) + {OutputBytes}
    {
      ok := used + size <= MAX_GRAPH_BYTES;
      if ok {
        used := used + size;
      } else {
        reasons := reasons + {OutputBytes};
      }
    }

    method MakeNode(m: Method, distance: nat) returns (node: Node)
      requires SourceReady() && (source != null ==> m in source.metadata)
      modifies if source == null then {} else {source}
      ensures SourceReady() && node == NewNode(g, m, distance)
      ensures SourceKept() && (source != null ==> source.visited == old(source.visited) + {m})
    {
      if source == null {
        node := NewNode(g, m, distance);
      } else {
        node := source.MakeNode(m, distance);
      }
    }

    /** List an edge that has been charged, and its other end if it is new. */
    method Record(link: Link, isNew: bool, node: Node, ghost id: nat, ghost head: nat)
      requires id < |g.sites| && Tracks() && (Indexed() || Addressed(g)) && Queued(head)
      requires link.key == KeyOf(g, Indexed(), id) && link.row == Row(g, id)
      requires SourceReady() && (isNew && source != null ==> link.other in source.visited)
      modifies this`order, this`nodes, this`queue, this`edges, this`seen, this`ids
      ensures Tracks() && SourceReady() && Queued(head)
      ensures ids == old(ids) + [id]
      ensures order == if isNew then old(order) + [link.other] else old(order)
      ensures nodes == if isNew then old(nodes)[link.other := node] else old(nodes)
    {
      KeysAppend(g, Indexed(), seen, ids, id);
      RowsAppend(g, ids, id);
      QueueAppend(head, link.other);
      hide KeysOf, KeyOf, Row;
      if isNew {
        nodes := nodes[link.other := node];
        order := order + [link.other];
        queue := queue + [link.other];
      }
      edges := edges + [link.row];
      seen := seen + {link.key};
      ids := ids + [id];
    }

    /** The same, against the specification: `st` is the state before the edge was charged. */
    method Accept(distance: nat, column: Column, link: Link, isNew: bool, node: Node, ghost id: nat, ghost head: nat,
                  ghost st: State)
      requires id < |g.sites| && Tracks() && (Indexed() || Addressed(g)) && link == LinkOf(g, Indexed(), column, id)
      requires Queued(head) && SourceReady() && (isNew && source != null ==> link.other in source.visited)
      requires Value() == st.(used := used) && used == st.used + Size(g, q, st, distance, column, id)
      requires isNew == (link.other !in st.nodes) && node == NewNode(g, link.other, distance + 1)
      requires CountedWith(isNew, link.other)
      modifies this`order, this`nodes, this`queue, this`edges, this`seen, this`ids
      ensures Tracks() && SourceReady() && Queued(head) && Counted()
      ensures Value() == Take(g, q, st, distance, column, id)
    {
      hide KeyOf, Row, Size, NewNode, Tracks, SourceReady, Queued, Addressed;
      TakeIs(g, q, st, distance, column, id, node);
      hide Take;
      Record(link, isNew, node, id, head);
      NewKey(st.nodes, link.other, node);
    }

    /** The other end of the edge being listed has been visited too, if it is new. */
    ghost predicate CountedWith(isNew: bool, other: Method)
      reads this`nodes, this`stopped, source
    {
      source != null && !stopped ==> source.visited == if isNew then nodes.Keys + {other} else nodes.Keys
    }

    lemma NewKey(nodes: map<Method, Node>, m: Method, node: Node)
      ensures nodes[m := node].Keys == nodes.Keys + {m}
    {
    }

    ghost function Visited(): set<Method>
      reads source
    {
      if source == null then {} else source.visited
    }

    lemma CountedMeans()
      requires Counted()
      ensures source != null && !stopped ==> Visited() == nodes.Keys
    {
    }

    lemma CountedNow(before: set<Method>, isNew: bool, other: Method)
      requires source != null && !stopped ==> before == nodes.Keys
      requires Visited() == if isNew && source != null then before + {other} else before
      ensures CountedWith(isNew, other)
    {
    }

    lemma NotCounted()
      requires stopped
      ensures Counted()
    {
    }

    lemma QueueAppend(head: nat, m: Method)
      requires Queued(head)
      ensures (order + [m])[head..] == queue + [m]
    {
    }

    /** The budgets on an edge within the depth, in the order they are tried; what fits is charged. */
    method Weigh(distance: nat, column: Column, link: Link, isNew: bool, ghost id: nat, ghost st: State)
      returns (refused: Option<Reason>, node: Node)
      requires id < |g.sites| && link == LinkOf(g, Indexed(), column, id) && distance != q.depth && st == Value()
      requires SourceReady() && (source != null ==> link.other in source.metadata)
      requires id !in ids && |edges| == |ids| && isNew == (link.other !in nodes)
      modifies this`reasons, this`used, if source == null then {} else {source}
      ensures SourceReady() && SourceKept() && node == NewNode(g, link.other, distance + 1)
      ensures refused.None? ==>
                Visited() == if isNew && source != null then old(Visited()) + {link.other} else old(Visited())
      ensures match refused
              case Some(reason) =>
                Judge(g, q, st, distance, column, id) == Refused(reason) && reasons == st.reasons + {reason} && used == st.used
              case None =>
                && Judge(g, q, st, distance, column, id) == Accepted && reasons == st.reasons
                && used == st.used + Size(g, q, st, distance, column, id)
    {
      JudgeBudgets(g, q, st, distance, column, id);
      SizeIs(g, q, st, distance, column, id);
      hide SourceReady, SourceKept, KeyOf, NewNode, Row, Judge, Size;
      refused, node := None, NewNode(g, link.other, distance + 1);
      if |edges| == q.maxEdges {
        refused, reasons := Some(MaxEdges), reasons + {MaxEdges};
      } else if isNew && |nodes| == q.maxNodes {
        refused, reasons := Some(MaxNodes), reasons + {MaxNodes};
      } else {
        var size := q.costs.edge(link.row);
        if isNew {
          node := MakeNode(link.other, distance + 1);
          size := q.costs.node(node) + size;
        }
        var ok := Fits(size);
        refused := if ok then None else Some(OutputBytes);
      }
    }

    /** One adjacent edge of the current node. */
    method VisitLink(distance: nat, column: Column, link: Link, ghost id: nat, ghost head: nat) returns (flow: Flow)
      requires id < |g.sites| && link == LinkOf(g, Indexed(), column, id)
      requires Tracks() && SourceReady() && (source != null ==> link.other in source.metadata)
      requires Queued(head) && Counted()
      modifies this, if source == null then {} else {source}
      ensures (Value(), flow) == VisitEdge(g, q, old(Value()), distance, column, id)
      ensures Tracks() && SourceReady() && Queued(head) && Counted()
      ensures SourceKept() && frontiers == old(frontiers)
    {
      SeenIsTaken(id);
      IndexedOrAddressed();
      CountedMeans();
      ghost var st := Value();
      JudgeFirst(g, q, st, distance, column, id);
      hide Tracks, SourceReady, KeyOf, NewNode, Row, Size, Judge, Take, Queued, Counted, CountedWith;
      if link.key in seen {
        return Next;
      }
      if distance == q.depth {
        reasons := reasons + {Depth};
        return Boundary;
      }
      var isNew := link.other !in nodes;
      ghost var visited := Visited();
      var refused, node := Weigh(distance, column, link, isNew, id, st);
      if refused.Some? {
        stopped := true;
        NotCounted();
        return Stop;
      }
      CountedNow(visited, isNew, link.other);
      Accept(distance, column, link, isNew, node, id, head, st);
      flow := Next;
    }

    /** The cut adjacency from the index, in index order. */
    method IndexedLinks(m: Method, column: Column) returns (links: seq<Link>)
      requires Indexed()
      ensures links == Links(g, true, column, Adjacent(g, q, column, m))
    {
      hide Matching, LinkOf, Searched;
      var limit := q.maxEdges + 1;
      links := [];
      ghost var found: seq<nat> := [];
      var id := 0;
      SearchStarts(g, column, m, limit);
      while id < |g.sites| && |links| < limit
        invariant 0 <= id <= |g.sites| && |links| == |found| <= limit && Searched(g, column, m, limit, id, found, links)
        decreases |g.sites| - id
      {
        SearchStep(g, column, m, limit, id, found, links);
        if End(g, column, id) == m {
          links := links + [Link(ById(id), OtherEnd(g, column, id), Row(g, id))];
          found := found + [id];
        }
        id := id + 1;
      }
      SearchEnds(g, column, m, limit, id, found, links);
    }

    method AdjacentLinks(m: Method, column: Column) returns (links: seq<Link>)
      requires column in q.Columns() && SourceReady() && AtHand(m)
      ensures links == Links(g, Indexed(), column, ShownFor(m).In(column))
      ensures source != null ==> forall i :: 0 <= i < |links| ==> links[i].other in source.metadata
    {
      if source == null {
        links := IndexedLinks(m, column);
      } else {
        assert column in source.s.Asked(false);
        links := source.AdjacentLinks(m, column);
      }
    }

    /** The edges of one column, until one is at the depth or refused. */
    method VisitLinks(m: Method, distance: nat, column: Column, ghost shown: Shown, ghost head: nat) returns (flow: Flow)
      requires column in q.Columns() && Tracks() && SourceReady() && Queued(head) && Counted()
      requires AtHand(m) && shown == ShownFor(m)
      modifies this, if source == null then {} else {source}
      ensures (Value(), flow) == VisitColumn(g, q, old(Value()), distance, column, shown.In(column))
      ensures Tracks() && SourceReady() && Queued(head) && Counted()
      ensures SourceKept() && frontiers == old(frontiers)
    {
      hide LinkOf, VisitEdge, KeysOf, RowsOf, SourceReady, ShownFor, AtHand, Counted;
      var links := AdjacentLinks(m, column);
      ghost var found := shown.In(column);
      for i := 0 to |links|
        invariant Tracks() && SourceReady() && Queued(head) && Counted() && frontiers == old(frontiers)
        invariant VisitColumn(g, q, old(Value()), distance, column, found) ==
                  VisitColumn(g, q, Value(), distance, column, found[i..])
        invariant SourceKept()
      {
        flow := VisitLink(distance, column, links[i], found[i], head);
        assert found[i..][0] == found[i] && found[i..][1..] == found[i + 1..];
        if flow != Next {
          return;
        }
      }
      flow := Next;
    }

    /** The columns of one node; a stop leaves the later one. */
    method VisitNode(m: Method, distance: nat, ghost shown: Shown, ghost head: nat) returns (boundary: bool)
      requires Tracks() && SourceReady() && Queued(head) && Counted() && !stopped
      requires AtHand(m) && shown == ShownFor(m)
      modifies this, if source == null then {} else {source}
      ensures (Value(), boundary) == VisitColumns(g, q, old(Value()), distance, q.Columns(), shown, false)
      ensures Tracks() && SourceReady() && Queued(head) && Counted() && SourceKept() && frontiers == old(frontiers)
    {
      hide VisitColumn, KeysOf, RowsOf, Query.Columns, Counted, FrontierGraph.Valid, GraphOf, Coded, Rescan.Handed, Inside;
      var columns := q.Columns();
      boundary := false;
      for i := 0 to |columns|
        invariant Tracks() && SourceReady() && Queued(head) && Counted() && !stopped && frontiers == old(frontiers)
        invariant VisitColumns(g, q, old(Value()), distance, columns, shown, false) ==
                  VisitColumns(g, q, Value(), distance, columns[i..], shown, boundary)
        invariant SourceKept()
      {
        StopIsStopped(g, q, Value(), distance, columns[i], shown.In(columns[i]));
        var flow := VisitLinks(m, distance, columns[i], shown, head);
        assert columns[i..][0] == columns[i] && columns[i..][1..] == columns[i + 1..];
        if flow == Stop {
          return;
        }
        boundary := boundary || flow == Boundary;
      }
    }

    /** Take the node at the head of the queue. */
    method VisitNext(ghost shown: Shown, ghost head: nat)
      requires Tracks() && SourceReady() && Counted() && head < |order| && Queued(head) && !stopped && Listed(q, Value())
      requires AtHand(queue[0]) && shown == ShownFor(queue[0])
      modifies this, if source == null then {} else {source}
      ensures Value() == Expand(g, q, old(Value()), head, shown)
      ensures Tracks() && SourceReady() && Counted() && Queued(head + 1) && SourceKept() && frontiers == old(frontiers)
    {
      hide VisitColumns, KeysOf, RowsOf, NoRepeats, Inside, FrontierGraph.Valid, GraphOf, Coded, Rescan.Handed;
      var m := queue[0];
      queue := queue[1..];
      VisitColumnsListed(g, q, Value(), nodes[m].depth, q.Columns(), shown, false);
      var boundary := VisitNode(m, nodes[m].depth, shown, head + 1);
      if m in nodes {
        var status := if stopped then BudgetBoundary else if boundary then DepthBoundary else Expanded;
        SameKeys(nodes, m, nodes[m].(status := status));
        nodes := nodes[m := nodes[m].(status := status)];
      }
    }

    lemma SameKeys(nodes: map<Method, Node>, m: Method, node: Node)
      requires m in nodes
      ensures nodes[m := node].Keys == nodes.Keys
    {
    }

    /** List the root, if it fits. */
    method Begin() returns (fits: bool)
      requires Value() == State([], map[], [], {}, 4096, false) && queue == [] && Tracks() && SourceReady()
      requires source != null ==> q.root in source.metadata && source.visited == {}
      modifies this, if source == null then {} else {source}
      ensures fits <==> Start(g, q).Some?
      ensures fits ==> Value() == Start(g, q).value && queue == order && Tracks() && SourceReady() && Counted()
      ensures SourceKept() && frontiers == old(frontiers)
    {
      hide NewNode, FrontierGraph.Valid, GraphOf, Coded, Tracks;
      var node := MakeNode(q.root, 0);
      fits := Fits(q.costs.node(node));
      if fits {
        nodes, order, queue := map[q.root := node], [q.root], [q.root];
      }
    }

    method ListNodes() returns (listed: seq<Node>)
      requires forall m :: m in order ==> m in nodes
      ensures listed == NodesOf(Value())
    {
      listed := [];
      for i := 0 to |order|
        invariant |listed| == i && forall j :: 0 <= j < i ==> listed[j] == nodes[order[j]]
      {
        listed := listed + [nodes[order[i]]];
      }
    }

    /** The traversal, the diagnostics and the answer. */
    method Finish() returns (ok: bool, answer: Answer)
      requires Known(g, q.root) && AtOutset()
      modifies this, if source == null then {} else {source}
      ensures source == null ==> ok && answer == Ask(g, q)
      ensures source != null ==> (if ok then Some(answer) else None) == Rescanned(source.s)
    {
      hide Tracks, SourceReady, Counted, AtOutset, Known, Explored, Report, Rescanned, Course, Starts, Explore, Ask,
        AllDynamics,
        DiagnoseAll, Rescan.AffordsSites, Reportable, Underway, RootHeld, GraphOf, Start;
      OutsetStarts();
      answer := NotFound;
      ok := ExploreAll();
      if ok {
        ghost var end := Value();
        EndReports();
        TracksRows();
        ok := PrepareSites();
        if ok {
          var count, sites := Diagnose();
          var listed := ListNodes();
          answer := Listing(listed, edges, reasons, count, sites);
          ReportIs(g, q, end, Value(), answer);
        }
      } else {
        NoCourseNoAnswer(source.s);
      }
    }

    /** What the end of the traversal is worth. */
    lemma EndReports()
      requires Known(g, q.root) && SourceReady() && AtSome()
      requires source == null ==> Explore(g, q) == Some(Value())
      requires source != null ==> Starts(source.s) && Course(source.s) == Some(Now())
      ensures Reportable(g, Value()) && forall m :: m in order ==> m in nodes
      ensures source == null ==> Ask(g, q) == Report(g, q, Value())
      ensures source != null ==>
                Rescanned(source.s) == if source.s.AffordsSites(source.AtHand().value, Elements(order))
                                       then Some(Report(g, q, Value())) else None
    {
      hide Explored, Report, Course, Starts, Explore, Known, Rescan.AffordsSites, FrontierGraph.Valid, GraphOf;
      if source == null {
        ExploreIsExplored(g, q);
        ExploredListed(g, q, Value());
      } else {
        CourseReports(source.s, Now());
      }
    }

    lemma TracksRows()
      requires Tracks()
      ensures (forall i :: 0 <= i < |ids| ==> ids[i] < |g.sites|) && edges == RowsOf(g, ids)
    {
    }

    /** Only the root is listed, and the source has been asked for it alone. */
    ghost predicate AtOutset()
      reads this, source
    {
      && Start(g, q).Some? && Value() == Start(g, q).value && queue == order && Tracks() && SourceReady() && Counted()
      && frontiers == [] && (source != null ==> Starts(source.s) && source.AtHand() == RootHeld(source.s))
    }

    lemma IsAtOutset()
      requires Start(g, q).Some? && Value() == Start(g, q).value && queue == order && Tracks() && SourceReady() && Counted()
      requires frontiers == [] && (source != null ==> source.AtHand() == RootHeld(source.s) && source.frontier.Some?)
      ensures AtOutset() && AtHand(q.root)
    {
      hide Start, Tracks, Counted, FrontierGraph.Valid, GraphOf, Rescan.Prepared;
    }

    lemma OutsetStarts()
      requires AtOutset()
      ensures Start(g, q).Some? && (source != null ==> source.s.g == g && source.s.q == q && Starts(source.s))
      ensures source != null ==> GraphOf(g, source.s.program) && RootHeld(source.s).Some?
    {
      hide Start, Tracks, Counted, FrontierGraph.Valid;
    }

    /** Ask the source for the next node along with those queued at its depth. */
    method PrepareNext() returns (ok: bool)
      requires SourceReady() && Counted() && !stopped && queue != [] && queue[0] in nodes
      requires source != null ==> AtSome() && Sane(source.s, Now()) && !Now().Over() && Queued(|frontiers|)
      modifies if source == null then {} else {source}
      ensures source == null ==> ok
      ensures source != null ==> (ok <==> old(NextHeld(source.s, Now())).Some?)
      ensures ok && source != null ==> source.AtHand() == old(NextHeld(source.s, Now()))
      ensures ok ==> SourceReady() && Counted() && AtHand(queue[0])
    {
      hide FrontierGraph.Valid, GraphOf, Listed, Rescan.Prepared, Rescan.Holds;
      ok := true;
      if source != null {
        var distance := nodes[queue[0]].depth;
        var identities := [queue[0]];
        ghost var keep := SameDepth(nodes, distance);
        for i := 1 to |queue|
          modifies {}
          invariant identities == [queue[0]] + Sorting.Filter(queue[1..i], keep)
        {
          IdentitiesStep(queue, keep, i);
          if queue[i] in nodes && nodes[queue[i]].depth == distance {
            identities := identities + [queue[i]];
          }
        }
        assert queue[1..|queue|] == queue[1..];
        ok := source.Prepare(identities, false);
      }
    }

    /** On the way: over the index the traversal from here leads to its end, over the rescanning source
        this is where the run has come. */
    ghost predicate Underway(head: nat)
      reads this, source
    {
      && Listed(q, Value()) && AtSome()
      && (source == null ==> Start(g, q).Some? && Traverse(g, q, Value(), head) == Explore(g, q).value)
      && (source != null ==>
            && Starts(source.s) && |frontiers| == head && Sane(source.s, Now())
            && Steps(source.s, Outset(source.s), head) == Some(Now()))
    }

    lemma Begins()
      requires AtOutset()
      ensures Underway(0) && Queued(0) && Tracks() && SourceReady() && Counted()
    {
      StartListed(g, q);
      hide Start, Tracks, Counted, GraphOf, RootHeld, FrontierGraph.Valid, NoRepeats, Traverse;
      if source != null {
        StepsNone(source.s);
      }
    }

    /** The next node in turn. */
    lemma InTurn(head: nat)
      requires Underway(head) && Queued(head) && queue != [] && !stopped && SourceReady()
      ensures head < |order| && queue[0] == order[head] && queue[0] in nodes && head <= q.maxEdges && Listed(q, Value())
      ensures source != null ==>
                && AtSome() && Sane(source.s, Now()) && !Now().Over() && Queued(|frontiers|) && Starts(source.s)
                && |frontiers| == head && Steps(source.s, Outset(source.s), head) == Some(Now())
                && source.s.g == g && source.s.q == q
      ensures source == null ==> Start(g, q).Some? && Traverse(g, q, Value(), head) == Explore(g, q).value
    {
      hide Starts, Sane, Steps, NoRepeats, Traverse, FrontierGraph.Valid, GraphOf, Start;
    }

    /** Breadth first, until the queue is empty or a budget stops it. */
    method ExploreAll() returns (ok: bool)
      requires AtOutset()
      modifies this, if source == null then {} else {source}
      ensures ok ==> Tracks() && SourceReady() && AtSome()
      ensures source == null ==> ok && Explore(g, q) == Some(Value())
      ensures source != null ==> Starts(source.s) && Course(source.s) == if ok then Some(Now()) else None
    {
      hide Tracks, SourceReady, Counted, Underway, Queued, Steps, Starts, Course, Explore, Traverse, Expand, Sane, NextHeld,
        Listed, AtOutset, Progress.Over, Rescan.Handed, IndexShown, Inside;
      ghost var head: nat := 0;
      ok := true;
      Begins();
      while queue != [] && !stopped
        invariant ok && Queued(head) && Tracks() && SourceReady() && Counted() && Underway(head)
        decreases q.maxEdges + 1 - head
      {
        InTurn(head);
        ghost var st := Value();
        ghost var p := if source == null then None else Some(Now());
        ok := PrepareNext();
        if !ok {
          NoCourse(source.s, p.value);
          return;
        }
        ghost var shown := ShownFor(queue[0]);
        VisitNext(shown, head);
        if source != null {
          frontiers := frontiers + [source.AtHand().value];
        }
        Advances(st, p, shown, head);
        head := head + 1;
      }
      Arrives(head);
    }

    lemma Advances(st: State, p: Option<Progress>, shown: Shown, head: nat)
      requires Listed(q, st) && head < |st.order| && st.order[head] in st.nodes && !st.stopped && Inside(g, shown)
               && AtSome()
      requires Value() == Expand(g, q, st, head, shown)
      requires source == null ==>
                 && shown == IndexShown(g, q, st.order[head]) && Start(g, q).Some?
                 && Traverse(g, q, st, head) == Explore(g, q).value
      requires source != null ==>
                 && source.s.g == g && source.s.q == q && Starts(source.s) && p.Some? && p.value.st == st
                 && Sane(source.s, p.value) && !p.value.Over() && |p.value.frontiers| == head
                 && NextHeld(source.s, p.value) == source.AtHand() && shown == source.s.Handed(source.AtHand().value, st.order[head])
                 && frontiers == p.value.frontiers + [source.AtHand().value]
                 && Steps(source.s, Outset(source.s), head) == Some(p.value)
      ensures Underway(head + 1)
    {
      ExpandListed(g, q, st, head, shown);
      if source == null {
        hide Expand, NoRepeats, Explore, Start, IndexShown;
      } else {
        StepTaken(source.s, p.value, source.AtHand().value);
        hide Expand, NoRepeats, Explore, Start, Starts, Sane, Steps, NextHeld, Rescan.Handed;
      }
    }

    lemma Arrives(head: nat)
      requires Underway(head) && Queued(head) && (queue == [] || stopped) && SourceReady()
      ensures AtSome()
      ensures source == null ==> Explore(g, q) == Some(Value())
      ensures source != null ==> Starts(source.s) && Course(source.s) == Some(Now())
    {
      hide NoRepeats, Expand, Starts, Sane, Steps, Start, FrontierGraph.Valid, GraphOf;
      if source == null {
        StartedOrNot(g, q);
      } else {
        CourseReached(source.s, head);
      }
    }

    /** The dynamic sites of the listed methods, if the source has room for them. */
    method PrepareSites() returns (ok: bool)
      requires SourceReady() && AtSome() && forall m :: m in order ==> m in nodes
      modifies if source == null then {} else {source}
      ensures source == null ==> ok
      ensures source != null ==> (ok <==> source.s.AffordsSites(old(source.AtHand()).value, Elements(order)))
      ensures ok && source != null ==> forall m :: m in order ==>
                m in source.diagnostics && source.diagnostics[m] == (|g.Dynamics(m)|, FirstRows(g.Dynamics(m), KEPT))
    {
      hide Rescan.AffordsSites, GraphOf, EndsAmong, Ready, FrontierGraph.Scans;
      ok := true;
      if source != null {
        assert (set m | m in order) == Elements(order);
        ok := source.PrepareDiagnostics(set m | m in order);
      }
    }

    method Dynamic(m: Method, limit: nat) returns (count: nat, rows: seq<Diagnostic>)
      requires limit <= KEPT
      requires source != null ==>
                 m in source.diagnostics && source.diagnostics[m] == (|g.Dynamics(m)|, FirstRows(g.Dynamics(m), KEPT))
      ensures count == |g.Dynamics(m)| && rows == FirstRows(g.Dynamics(m), limit)
    {
      if source == null {
        count, rows := |g.Dynamics(m)|, FirstRows(g.Dynamics(m), limit);
      } else {
        FirstOfFirst(g.Dynamics(m), limit);
        count, rows := source.Dynamic(m, limit);
      }
    }

    /** What has been listed so far, as the specification sees it. */
    ghost function Account(sites: seq<Diagnostic>): Diagnosis
      reads this
    {
      Diagnosis(used, sites, OutputBytes in reasons)
    }

    method FillRows(rows: seq<Diagnostic>, before: seq<Diagnostic>) returns (sites: seq<Diagnostic>)
      modifies this`used, this`reasons
      ensures Account(sites) == Fill(q, rows, old(Account(before)))
      ensures before <= sites && |sites| <= |before| + |rows|
      ensures reasons == old(reasons) || reasons == old(reasons) + {OutputBytes}
    {
      sites := before;
      for i := 0 to |rows|
        invariant before <= sites && |sites| == |before| + i && reasons == old(reasons)
        invariant Fill(q, rows, old(Account(before))) == Fill(q, rows[i..], Account(sites))
      {
        var ok := Fits(q.costs.diagnostic(rows[i]));
        assert rows[i..][0] == rows[i] && rows[i..][1..] == rows[i + 1..];
        if !ok {
          return;
        }
        sites := sites + [rows[i]];
      }
    }

    /** The dynamic sites of the listed methods: all counted, the first few listed. */
    method Diagnose() returns (count: nat, sites: seq<Diagnostic>)
      requires source != null ==> forall m :: m in order ==>
                 m in source.diagnostics && source.diagnostics[m] == (|g.Dynamics(m)|, FirstRows(g.Dynamics(m), KEPT))
      modifies this`used, this`reasons
      ensures count == |AllDynamics(g, order)| && Account(sites) == DiagnoseAll(g, q, order, old(Account([])))
      ensures reasons == old(reasons) || reasons == old(reasons) + {OutputBytes}
    {
      hide Fill, FirstRows;
      count, sites := 0, [];
      for i := 0 to |order|
        invariant |sites| <= KEPT && count + |AllDynamics(g, order[i..])| == |AllDynamics(g, order)|
        invariant DiagnoseAll(g, q, order, old(Account([]))) == DiagnoseAll(g, q, order[i..], Account(sites))
        invariant reasons == old(reasons) || reasons == old(reasons) + {OutputBytes}
      {
        var limit := if OutputBytes in reasons then 0 else KEPT - |sites|;
        var more, rows := Dynamic(order[i], limit);
        count := count + more;
        FirstRowsFew(g.Dynamics(order[i]), limit);
        assert order[i..][0] == order[i] && order[i..][1..] == order[i + 1..];
        FillNothing(q, Account(sites));
        if limit > 0 {
          sites := FillRows(rows, sites);
        }
      }
    }

    lemma IndexedOrAddressed()
      requires SourceReady()
      ensures Indexed() || Addressed(g)
    {
    }

    lemma SeenIsTaken(id: nat)
      requires id < |g.sites| && Tracks()
      ensures KeyOf(g, Indexed(), id) in seen <==> id in ids
      ensures |edges| == |ids|
    {
    }
  }

  /** What has been found of an adjacency, with the links to it, and where the search goes on. */
  ghost predicate Searched(g: Graph, column: Column, m: Method, limit: nat, id: nat, found: seq<nat>, links: seq<Link>) {
    && id <= |g.sites| && |links| == |found| <= limit
    && Matching(g, column, m, 0, limit) == found + Matching(g, column, m, id, limit - |found|)
    && forall i :: 0 <= i < |found| ==> found[i] < |g.sites| && links[i] == LinkOf(g, true, column, found[i])
  }

  lemma ReportIs(g: Graph, q: Query, end: State, after: State, answer: Answer)
    requires Reportable(g, end) && answer.Listing? && after == end.(used := after.used, reasons := after.reasons)
    requires answer.nodes == NodesOf(end) && answer.edges == RowsOf(g, end.edges) && answer.reasons == after.reasons
    requires answer.dynamicCount == |AllDynamics(g, end.order)|
    requires Diagnosis(after.used, answer.sites, OutputBytes in after.reasons) ==
             DiagnoseAll(g, q, end.order, Diagnosis(end.used, [], OutputBytes in end.reasons))
    requires after.reasons == end.reasons || after.reasons == end.reasons + {OutputBytes}
    ensures answer == Report(g, q, end)
  {
    hide AllDynamics, DiagnoseAll;
  }

  lemma IdentitiesStep(queue: seq<Method>, keep: Method -> bool, i: nat)
    requires 1 <= i < |queue|
    ensures Sorting.Filter(queue[1..i + 1], keep) == Sorting.Filter(queue[1..i], keep) + if keep(queue[i]) then [queue[i]] else []
  {
    assert queue[1..i + 1] == queue[1..i] + [queue[i]];
    Sorting.FilterAppend(queue[1..i], [queue[i]], keep);
    Sorting.FilterOne(queue[i], keep);
  }

  lemma SearchStarts(g: Graph, column: Column, m: Method, limit: nat)
    ensures Searched(g, column, m, limit, 0, [], [])
  {
    assert [] + Matching(g, column, m, 0, limit) == Matching(g, column, m, 0, limit);
  }

  lemma SearchStep(g: Graph, column: Column, m: Method, limit: nat, id: nat, found: seq<nat>, links: seq<Link>)
    requires Searched(g, column, m, limit, id, found, links) && id < |g.sites| && |found| < limit
    ensures if End(g, column, id) == m
            then Searched(g, column, m, limit, id + 1, found + [id],
                         links + [Link(ById(id), OtherEnd(g, column, id), Row(g, id))])
            else Searched(g, column, m, limit, id + 1, found, links)
  {
    hide Searched, Matching, LinkOf, Row, End, OtherEnd;
    if End(g, column, id) == m {
      SearchFinds(g, column, m, limit, id, found, links);
    } else {
      SearchPasses(g, column, m, limit, id, found, links);
    }
  }

  lemma SearchFinds(g: Graph, column: Column, m: Method, limit: nat, id: nat, found: seq<nat>, links: seq<Link>)
    requires Searched(g, column, m, limit, id, found, links) && id < |g.sites| && |found| < limit
    requires End(g, column, id) == m
    ensures Searched(g, column, m, limit, id + 1, found + [id],
                     links + [Link(ById(id), OtherEnd(g, column, id), Row(g, id))])
  {
    MatchingStep(g, column, m, id, limit - |found|);
    LinkIs(g, column, id);
    hide Matching, LinkOf, Row, End, OtherEnd;
    FoundOne(found, id, Matching(g, column, m, id + 1, limit - |found| - 1));
  }

  lemma SearchPasses(g: Graph, column: Column, m: Method, limit: nat, id: nat, found: seq<nat>, links: seq<Link>)
    requires Searched(g, column, m, limit, id, found, links) && id < |g.sites| && |found| < limit
    requires End(g, column, id) != m
    ensures Searched(g, column, m, limit, id + 1, found, links)
  {
    MatchingStep(g, column, m, id, limit - |found|);
    hide Matching, LinkOf, Row, End, OtherEnd;
  }

  lemma FoundOne(found: seq<nat>, id: nat, rest: seq<nat>)
    ensures found + ([id] + rest) == (found + [id]) + rest
  {
  }

  lemma SearchEnds(g: Graph, column: Column, m: Method, limit: nat, id: nat, found: seq<nat>, links: seq<Link>)
    requires Searched(g, column, m, limit, id, found, links) && (id == |g.sites| || |found| == limit)
    ensures links == Links(g, true, column, Matching(g, column, m, 0, limit))
  {
    MatchingEnd(g, column, m, id, limit - |found|);
    hide Matching, LinkOf;
    assert found + [] == found;
  }

  lemma MatchingStep(g: Graph, column: Column, m: Method, id: nat, limit: nat)
    requires id < |g.sites| && limit > 0
    ensures Matching(g, column, m, id, limit) ==
            if End(g, column, id) == m then [id] + Matching(g, column, m, id + 1, limit - 1)
            else Matching(g, column, m, id + 1, limit)
  {
  }

  lemma FirstRowsFew(rows: seq<Diagnostic>, limit: nat)
    ensures |FirstRows(rows, limit)| <= limit && (limit == 0 ==> FirstRows(rows, limit) == [])
  {
  }

  lemma FillNothing(q: Query, d: Diagnosis)
    ensures Fill(q, [], d) == d
  {
  }

  lemma JudgeFirst(g: Graph, q: Query, st: State, distance: nat, column: Column, id: nat)
    requires id < |g.sites|
    ensures id in st.edges ==> Judge(g, q, st, distance, column, id) == Seen
    ensures id !in st.edges && distance == q.depth ==> Judge(g, q, st, distance, column, id) == AtDepth
  {
  }

  /** The budgets on an edge that has not been seen, within the depth. */
  lemma JudgeBudgets(g: Graph, q: Query, st: State, distance: nat, column: Column, id: nat)
    requires id < |g.sites| && id !in st.edges && distance != q.depth
    ensures Judge(g, q, st, distance, column, id) ==
            if |st.edges| == q.maxEdges then Refused(MaxEdges)
            else if OtherEnd(g, column, id) !in st.nodes && |st.nodes| == q.maxNodes then Refused(MaxNodes)
            else if st.used + Size(g, q, st, distance, column, id) > MAX_GRAPH_BYTES then Refused(OutputBytes)
            else Accepted
  {
  }

  lemma SizeIs(g: Graph, q: Query, st: State, distance: nat, column: Column, id: nat)
    requires id < |g.sites|
    ensures Size(g, q, st, distance, column, id) == q.costs.edge(Row(g, id)) +
            if OtherEnd(g, column, id) in st.nodes then 0
            else q.costs.node(NewNode(g, OtherEnd(g, column, id), distance + 1))
  {
  }

  lemma TakeIs(g: Graph, q: Query, st: State, distance: nat, column: Column, id: nat, node: Node)
    requires id < |g.sites| && node == NewNode(g, OtherEnd(g, column, id), distance + 1)
    ensures var other := OtherEnd(g, column, id);
            Take(g, q, st, distance, column, id) ==
            State(if other in st.nodes then st.order else st.order + [other],
                  if other in st.nodes then st.nodes else st.nodes[other := node], st.edges + [id], st.reasons,
                  st.used + Size(g, q, st, distance, column, id), st.stopped)
  {
  }

  lemma MatchingEnd(g: Graph, column: Column, m: Method, id: nat, limit: nat)
    requires id <= |g.sites| && (id == |g.sites| || limit == 0)
    ensures Matching(g, column, m, id, limit) == []
  {
  }

  lemma LinkIs(g: Graph, column: Column, id: nat)
    requires id < |g.sites|
    ensures LinkOf(g, true, column, id) == Link(ById(id), OtherEnd(g, column, id), Row(g, id))
  {
  }

  lemma RowsAppend(g: Graph, ids: seq<nat>, id: nat)
    requires id < |g.sites| && forall i :: 0 <= i < |ids| ==> ids[i] < |g.sites|
    ensures RowsOf(g, ids + [id]) == RowsOf(g, ids) + [Row(g, id)]
  {
  }

  /** The query over the index, or over the rescanning source. Over the index it is answered as a
      function of the graph; over the other the answer, or giving up, is that of the run. */
  method QueryCallGraph(g: Graph, q: Query, source: FrontierGraph?) returns (ok: bool, answer: Answer)
    requires source != null ==>
               && source.s.g == g && source.s.q == q && source.Valid() && source.frontier == None && source.visited == {}
               && GraphOf(g, source.s.program) && Coded(g)
    modifies if source == null then {} else {source}
    ensures source == null ==> ok && answer == Ask(g, q)
    ensures source != null ==> (if ok then Some(answer) else None) == Rescanned(source.s)
    ensures ok ==> Answers(g, q, answer)
    ensures !ok ==> source != null && GivesUp(source.s)
  {
    hide Known, FrontierGraph.Valid, Start, Explore, Report, Explored, GraphOf, Course, Answers, GivesUp, Rescan.Prepared;
    var found := true;
    ok, answer := true, NotFound;
    if source == null {
      found := Known(g, q.root);
    } else {
      ok, found := source.Root();
    }
    if ok && found {
      var explorer := new Explorer(g, q, source);
      var fits := explorer.Begin();
      StartedOrNot(g, q);
      if fits {
        explorer.IsAtOutset();
        ok, answer := explorer.Finish();
      } else {
        answer := RootTooLarge;
      }
    }
    if source == null {
      AskAnswers(g, q);
    } else if ok {
      RescannedAnswers(source.s);
    } else {
      GivesUpMeans(source.s);
    }
  }

  /** A session without an index asks the rescanning source first, and builds the index when that gives
      up; so there always is an answer. */
  method AnswerCallGraph(g: Graph, q: Query, source: FrontierGraph) returns (answer: Answer)
    requires source.s.g == g && source.s.q == q && source.Valid() && source.frontier == None && source.visited == {}
    requires GraphOf(g, source.s.program) && Coded(g)
    modifies source
    ensures Answers(g, q, answer)
    ensures answer == if Rescanned(source.s).Some? then Rescanned(source.s).value else Ask(g, q)
    ensures q.direction == Outgoing || Untangled(source.s.program) ==> answer == Ask(g, q)
  {
    hide *;
    var ok;
    ok, answer := QueryCallGraph(g, q, source);
    if ok && q.direction == Outgoing {
      OutgoingIsAsked(source.s);
    }
    if ok && Untangled(source.s.program) {
      UntangledIsAsked(source.s);
    }
    if !ok {
      ok, answer := QueryCallGraph(g, q, null);
    }
  }
}
