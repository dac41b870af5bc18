/** The answer to a call-graph query as it reports a traversal, and what it may claim. */
module CallGraphAnswers {
  import opened Bytes
  import opened CallGraph
  import opened CallGraphTruth
  import opened FrontierScans

  // ---------------------------------------------------------------------------------------
  // The answer
  // ---------------------------------------------------------------------------------------

  /** The unresolved sites being listed under what is left of the byte budget. */
  datatype Diagnosis = Diagnosis(used: nat, sites: seq<Diagnostic>, full: bool)
  {
    function Limit(): nat {
      if full || |sites| >= KEPT then 0 else KEPT - |sites|
    }
  }

  function Fill(q: Query, rows: seq<Diagnostic>, d: Diagnosis): Diagnosis
    decreases |rows|
  {
    if rows == [] then d
    else
      var used := d.used + q.costs.diagnostic(rows[0]);
      if used > MAX_GRAPH_BYTES then d.(full := true)
      else Fill(q, rows[1..], d.(used := used, sites := d.sites + [rows[0]]))
  }

  function DiagnoseAll(g: Graph, q: Query, order: seq<Method>, d: Diagnosis): Diagnosis
    decreases |order|
  {
    if order == [] then d
    else DiagnoseAll(g, q, order[1..], Fill(q, FirstRows(g.Dynamics(order[0]), d.Limit()), d))
  }

  /** Every call site without a target, method by method. */
  function AllDynamics(g: Graph, order: seq<Method>): seq<Diagnostic> {
    if order == [] then [] else g.Dynamics(order[0]) + AllDynamics(g, order[1..])
  }

  datatype Answer =
    | NotFound
    | RootTooLarge
    | Listing(nodes: seq<Node>, edges: seq<EdgeRow>, reasons: set<Reason>, dynamicCount: nat, sites: seq<Diagnostic>)
  {
    predicate CompleteWithinDepth()
      requires Listing?
    {
      reasons <= {Depth}
    }
  }

  function NodesOf(st: State): (r: seq<Node>)
    requires forall m :: m in st.order ==> m in st.nodes
    ensures |r| == |st.order| && forall i :: 0 <= i < |r| ==> r[i] == st.nodes[st.order[i]]
  {
    seq(|st.order|, i requires 0 <= i < |st.order| => st.nodes[st.order[i]])
  }

  function RowsOf(g: Graph, ids: seq<nat>): (r: seq<EdgeRow>)
    requires forall i :: 0 <= i < |ids| ==> ids[i] < |g.sites|
    ensures |r| == |ids| && forall i :: 0 <= i < |r| ==> r[i] == Row(g, ids[i])
  {
    seq(|ids|, i requires 0 <= i < |ids| => Row(g, ids[i]))
  }

  /** What is listed is there. */
  predicate Reportable(g: Graph, end: State) {
    && (forall m :: m in end.order ==> m in end.nodes)
    && forall i :: 0 <= i < |end.edges| ==> end.edges[i] < |g.sites|
  }

  lemma ExploredListed(g: Graph, q: Query, end: State)
    requires Explored(g, q, end)
    ensures Reportable(g, end)
  {
    EdgesAreAnchored(g, q, end);
    hide Explored, NoRepeats;
    assert forall i :: 0 <= i < |end.edges| ==> Anchored(g, q, end, end.edges[i]);
  }

  function Report(g: Graph, q: Query, end: State): Answer
    requires Reportable(g, end)
  {
    var d := DiagnoseAll(g, q, end.order, Diagnosis(end.used, [], OutputBytes in end.reasons));
    Listing(NodesOf(end), RowsOf(g, end.edges), end.reasons + (if d.full then {OutputBytes} else {}),
            |AllDynamics(g, end.order)|, d.sites)
  }

  /** The answer over the index, as a function of the whole graph. */
  function Ask(g: Graph, q: Query): Answer {
    if !Known(g, q.root) then NotFound
    else match Explore(g, q)
         case None => RootTooLarge
         case Some(end) => ExploreIsExplored(g, q); ExploredListed(g, q, end); Report(g, q, end)
  }

  /** A listing that reports a traversal. */
  ghost predicate Reports(g: Graph, q: Query, end: State, answer: Answer) {
    Explored(g, q, end) && Reportable(g, end) && answer == Report(g, q, end)
  }

  /** The answers there may be, over a source that hands over each adjacency in any order. */
  ghost predicate Answers(g: Graph, q: Query, answer: Answer) {
    match answer
    case NotFound => !Known(g, q.root)
    case RootTooLarge => Known(g, q.root) && Start(g, q).None?
    case Listing(_, _, _, _, _) => Known(g, q.root) && exists end :: Reports(g, q, end, answer)
  }

  lemma AskAnswers(g: Graph, q: Query)
    ensures Answers(g, q, Ask(g, q))
  {
    StartedOrNot(g, q);
    if Explore(g, q).Some? {
      ExploreIsExplored(g, q);
      ExploredListed(g, q, Explore(g, q).value);
      hide Explore, Explored, Report, Known;
      assert Known(g, q.root) ==> Reports(g, q, Explore(g, q).value, Ask(g, q));
    }
  }

  lemma StartedOrNot(g: Graph, q: Query)
    ensures Explore(g, q).Some? <==> Start(g, q).Some?
  {
  }

  // ---------------------------------------------------------------------------------------
  // What the answer says
  // ---------------------------------------------------------------------------------------

  lemma {:induction false} FillIsPrefix(q: Query, rows: seq<Diagnostic>, d: Diagnosis)
    requires !d.full
    ensures var r := Fill(q, rows, d);
            && d.sites <= r.sites <= d.sites + rows && (!r.full ==> r.sites == d.sites + rows)
            && d.used <= r.used && (d.used <= MAX_GRAPH_BYTES ==> r.used <= MAX_GRAPH_BYTES)
    decreases |rows|
  {
    if rows != [] {
      var used := d.used + q.costs.diagnostic(rows[0]);
      if used <= MAX_GRAPH_BYTES {
        var next := d.(used := used, sites := d.sites + [rows[0]]);
        FillIsPrefix(q, rows[1..], next);
        assert next.sites + rows[1..] == d.sites + rows;
      }
    }
  }

  lemma {:induction false} FillWhenFull(g: Graph, q: Query, order: seq<Method>, d: Diagnosis)
    requires d.full
    ensures DiagnoseAll(g, q, order, d) == d
    decreases |order|
  {
    if order != [] {
      FillWhenFull(g, q, order[1..], d);
    }
  }

  lemma FirstRowsJoin(a: seq<Diagnostic>, b: seq<Diagnostic>, rest: seq<Diagnostic>, limit: nat)
    requires |a| <= limit
    ensures FirstRows(a + FirstRows(b, limit - |a|) + rest, limit) == FirstRows(a + (b + rest), limit)
    ensures a + FirstRows(b, limit - |a|) <= a + (b + rest)
  {
  }

  /** The listed diagnostics are the first of all there are, in node order: twenty of them, or
      as many as there are, unless bytes ran out; then they are still a prefix. */
  lemma {:induction false} DiagnosticsAreFirst(g: Graph, q: Query, order: seq<Method>, d: Diagnosis)
    requires |d.sites| <= KEPT && !d.full
    ensures var r := DiagnoseAll(g, q, order, d); var all := d.sites + AllDynamics(g, order);
            && r.sites <= all && |r.sites| <= KEPT
            && (!r.full ==> r.sites == FirstRows(all, KEPT))
    decreases |order|
  {
    if order == [] {
      assert d.sites + [] == d.sites;
    } else {
      var rows := FirstRows(g.Dynamics(order[0]), d.Limit());
      var next := Fill(q, rows, d);
      var rest := AllDynamics(g, order[1..]);
      FillIsPrefix(q, rows, d);
      FirstRowsJoin(d.sites, g.Dynamics(order[0]), rest, KEPT);
      if next.full {
        FillWhenFull(g, q, order[1..], next);
      } else {
        DiagnosticsAreFirst(g, q, order[1..], next);
      }
    }
  }

  ghost predicate Names(nodes: seq<Node>, m: Method) {
    exists i :: 0 <= i < |nodes| && nodes[i].name == m
  }

  /** However it ended, and in whatever order it went, the depths of an answer are true distances. */
  lemma AnswerDepths(g: Graph, q: Query, answer: Answer, i: nat)
    requires Answers(g, q, answer) && answer.Listing? && i < |answer.nodes|
    ensures var node := answer.nodes[i]; node.depth <= q.depth && AtDistance(g, q, node.name, node.depth)
  {
    var end :| Reports(g, q, end, answer);
    EdgesAreAnchored(g, q, end);
    hide Explored, DiagnoseAll, AllDynamics, AtDistance, NoRepeats;
    DepthsAreDistances(g, q, end, end.order[i]);
  }

  /** However it ended, the edges of an answer are call sites of the input, each once, between
      methods it lists. */
  lemma AnswerEdges(g: Graph, q: Query, answer: Answer) returns (ids: seq<nat>)
    requires Answers(g, q, answer) && answer.Listing?
    ensures NoRepeats(ids) && (forall i :: 0 <= i < |ids| ==> ids[i] < |g.sites|) && answer.edges == RowsOf(g, ids)
    ensures forall i :: 0 <= i < |ids| ==>
              Names(answer.nodes, g.sites[ids[i]].caller) && Names(answer.nodes, g.sites[ids[i]].callee)
  {
    var end :| Reports(g, q, end, answer);
    ids := end.edges;
    EdgesAreAnchored(g, q, end);
    hide Explored, DiagnoseAll, AllDynamics, NoRepeats, Names;
    forall i | 0 <= i < |ids|
      ensures Names(answer.nodes, g.sites[ids[i]].caller) && Names(answer.nodes, g.sites[ids[i]].callee)
    {
      assert Anchored(g, q, end, ids[i]);
      NamesAreListed(q, end, g.sites[ids[i]].caller);
      NamesAreListed(q, end, g.sites[ids[i]].callee);
    }
  }

  /** An answer that claims to be complete within its depth names exactly the methods that many
      hops from the root, and lists exactly the call sites of those closer, each once. */
  lemma CompleteAnswer(g: Graph, q: Query, answer: Answer) returns (ids: seq<nat>)
    requires Answers(g, q, answer) && answer.Listing? && answer.CompleteWithinDepth()
    ensures forall m :: Names(answer.nodes, m) <==> Within(g, q, m, q.depth)
    ensures (forall i :: 0 <= i < |ids| ==> ids[i] < |g.sites|) && answer.edges == RowsOf(g, ids)
    ensures NoRepeats(ids) && forall id: nat :: id in ids <==> Near(g, q, id)
  {
    var end :| Reports(g, q, end, answer);
    ids := end.edges;
    EdgesAreAnchored(g, q, end);
    CompleteClaim(g, q, end, answer);
    UnstoppedIsWhole(g, q, end);
    hide Explored, DiagnoseAll, AllDynamics, NoRepeats, Names, Within, Near, RowsOf, CallGraphTruth.Anchored;
    forall m ensures Names(answer.nodes, m) <==> Within(g, q, m, q.depth) {
      NamesAreListed(q, end, m);
    }
  }

  lemma NamesAreListed(q: Query, end: State, m: Method)
    requires Listed(q, end)
    ensures Names(NodesOf(end), m) <==> m in end.nodes
  {
    hide NoRepeats;
    var nodes := NodesOf(end);
    if m in end.nodes {
      var i :| 0 <= i < |end.order| && end.order[i] == m;
      assert nodes[i].name == m;
    }
  }

  /** Exactly when an answer claims to be complete within its depth: no budget stopped it, and
      the diagnostics of the listed methods fit as well. */
  lemma CompleteClaim(g: Graph, q: Query, end: State, answer: Answer)
    requires Reports(g, q, end, answer)
    ensures answer.CompleteWithinDepth() <==>
              !end.stopped && !DiagnoseAll(g, q, end.order, Diagnosis(end.used, [], false)).full
  {
    StoppedByOneBudget(g, q, end);
    if end.stopped {
      StoppedIsNotDepth(g, q, end);
    }
    hide Explored, DiagnoseAll, AllDynamics, Cause, NoRepeats, Anchored;
  }

  lemma StoppedIsNotDepth(g: Graph, q: Query, end: State)
    requires Explored(g, q, end) && end.stopped
    ensures !(end.reasons <= {Depth})
  {
    StoppedByOneBudget(g, q, end);
    hide Explored;
    var m, reason :| m in end.nodes && end.reasons == {reason} && Cause(g, q, end, m, end.nodes[m].depth, reason);
    assert reason != Depth;
    assert reason in end.reasons;
  }
}
