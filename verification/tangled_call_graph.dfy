/** An input and a query whose answers over the two sources name different methods. */
module TangledCallGraphs {
  import opened Bytes
  import opened CallGraph
  import opened CallGraphTruth
  import opened CallSites
  import opened FrontierScans
  import opened CallGraphAnswers
  import opened FrontierRuns

  /** The callers of method 9 in the tangled input, with room for two nodes. */
  function TangledGraph(): Graph {
    Graph([Site(2, 9, 0, 0x6E), Site(1, 9, 0, 0x6E)],
          map[0 := Definition(0, false), 1 := Definition(0, false), 2 := Definition(0, false)], map[])
  }

  function TangledQuery(): Query {
    Query(9, Incoming, 1, 2, 5, Costs((node: Node) => 0, (row: EdgeRow) => 0, (d: Diagnostic) => 0))
  }

  lemma TangledTakes(first: nat, second: nat)
    requires first < 2 && second < 2 && first != second
    ensures var g, q := TangledGraph(), TangledQuery();
            && Start(g, q).Some?
            && var st := Start(g, q).value; var taken := Take(g, q, st, 0, Target, first);
            && st.order == [9] && 9 in st.nodes && st.nodes[9].depth == 0 && !st.stopped
            && Judge(g, q, st, 0, Target, first) == Accepted && Judge(g, q, taken, 0, Target, second) == Refused(MaxNodes)
            && taken.order == [9, g.sites[first].caller] && 9 in taken.nodes
  {
  }

  /** Whatever comes first of two callers is listed, and stops the other. */
  lemma FirstCallerOnly(shown: Shown, first: nat, second: nat)
    requires first < 2 && second < 2 && first != second && shown.target == [first, second] && shown.source == []
    ensures var g, q := TangledGraph(), TangledQuery();
            && Start(g, q).Some? && Inside(g, shown) && Start(g, q).value.order == [9]
            && 9 in Start(g, q).value.nodes && !Start(g, q).value.stopped
            && var end := Expand(g, q, Start(g, q).value, 0, shown);
               end.order == [9, g.sites[first].caller] && end.stopped
  {
    var g, q := TangledGraph(), TangledQuery();
    TangledTakes(first, second);
    hide Judge, Take, Start;
    var st := Start(g, q).value;
    var taken := Take(g, q, st, 0, Target, first);
    assert shown.target[1..] == [second];
    var (mid, flow) := VisitColumn(g, q, taken, 0, Target, [second]);
    assert VisitColumn(g, q, st, 0, Target, shown.target) == (mid, flow);
    assert VisitColumns(g, q, st, 0, [Target], shown, false) == (mid, false);
  }

  lemma TangledNumbers()
    ensures var g := TangledGraph(); Addressed(g) && IdOf(g, g.sites[0]) == 0 && IdOf(g, g.sites[1]) == 1
    ensures Adjacent(TangledGraph(), TangledQuery(), Target, 9) == [0, 1]
    ensures Adjacent(TangledGraph(), TangledQuery(), Source, 9) == []
  {
    var g := TangledGraph();
    assert g.sites[0] in g.sites && g.sites[1] in g.sites;
    assert Matching(g, Target, 9, 2, 4) == [] && Matching(g, Target, 9, 1, 5) == [1];
    assert Matching(g, Source, 9, 2, 6) == [] && Matching(g, Source, 9, 1, 6) == [];
  }

  lemma TangledKept()
    ensures var g, program := TangledGraph(), [TangledDex()];
            GraphOf(g, program) && IdsOf(g, ScanKept(g, program, {9}, {Target}, Target, 9, 6)) == [1, 0]
  {
    hide *;
    var g, program := TangledGraph(), [TangledDex()];
    TangledInput();
    TangledGraphIs(program);
    TangledNumbers();
    ScanKeptIsFront(g, program, {9}, {Target}, Target, 9, 6);
    CallsNine();
    CallSites.FilterTwo(Site(1, 9, 0, 0x6E), Site(2, 9, 0, 0x6E), EndIs(Target, 9));
    FrontOfTwo(Site(1, 9, 0, 0x6E), Site(2, 9, 0, 0x6E), 6);
  }

  lemma TangledGraphIs(program: seq<Dex>)
    requires AllDeclared(program) && Sites(program) == [Site(2, 9, 0, 0x6E), Site(1, 9, 0, 0x6E)]
    ensures GraphOf(TangledGraph(), program)
    ensures TangledGraph().sites == [Site(2, 9, 0, 0x6E), Site(1, 9, 0, 0x6E)]
  {
    hide Sites, AllDeclared;
  }

  lemma FrontOfTwo(x: Site, y: Site, limit: nat)
    requires limit >= 2
    ensures Front([x] + [y], limit) == [x, y]
  {
  }

  lemma TangledShown()
    ensures var g, q := TangledGraph(), TangledQuery();
            && IndexShown(g, q, q.root) == Shown([], [0, 1])
            && q.root == 9 && q.maxEdges + 1 == 6 && g.sites[0].caller == 2 && g.sites[1].caller == 1
  {
    TangledNumbers();
  }

  // ---------------------------------------------------------------------------------------
  // The run
  // ---------------------------------------------------------------------------------------

  /** Records cost nothing, so whatever the budget is the source does not give up. */
  function TangledRescan(budget: nat): Rescan {
    Rescan(TangledGraph(), [TangledDex()], TangledQuery(),
           Charges((m: Method) => 0, (site: Site) => 0, (m: Method, row: Diagnostic) => 0), budget)
  }

  lemma {:induction false} NamesCostNothing(cost: Method -> nat, names: set<Method>)
    requires forall m :: cost(m) == 0
    ensures Sum(cost, names) == 0
    decreases |names|
  {
    if names != {} {
      var m :| m in names && Sum(cost, names) == cost(m) + Sum(cost, names - {m});
      NamesCostNothing(cost, names - {m});
    }
  }

  lemma {:induction false} SitesCostNothing(g: Graph, charges: Charges, cap: nat, adjacency: Adjacency, names: set<Method>,
                                            columns: set<Column>, id: nat)
    requires id <= |g.sites| && forall site :: charges.site(site) == 0
    ensures ScanCost(g, charges, cap, adjacency, names, columns, id) == 0
    decreases |g.sites| - id
  {
    hide Gather;
    if id < |g.sites| {
      SitesCostNothing(g, charges, cap, Gather(cap, adjacency, names, columns, g.sites[id]), names, columns, id + 1);
    }
  }

  lemma TangledAffords(budget: nat, visited: set<Method>, names: set<Method>, columns: set<Column>)
    ensures TangledRescan(budget).Affords(visited, names, columns)
  {
    var s := TangledRescan(budget);
    var view := s.View(names, columns);
    SitesCostNothing(view, s.charges, s.Cap(), map[], names, columns, 0);
    NamesCostNothing(s.charges.name, visited);
    NamesCostNothing(s.charges.name, ScanEnds(view, s.Cap(), map[], names, columns, 0, names) - visited);
    hide Sum, ScanCost, ScanEnds, ScanGraph;
  }

  /** The root is scanned for alone. */
  lemma TangledStarts(budget: nat)
    ensures var s := TangledRescan(budget);
            && s.g == TangledGraph() && s.q == TangledQuery() && s.program == [TangledDex()] && s.Cap() == 6
            && Starts(s) && RootHeld(s) == Some(Held({9}, {Target}, {})) && Known(s.g, s.q.root)
  {
    var s := TangledRescan(budget);
    TangledKept();
    assert s.g.sites[0].callee == 9;
    TangledTakes(0, 1);
    TangledAffords(budget, {}, {9}, s.Asked(true));
    hide Rescan.Affords, GraphOf, Sites, AllDeclared, Start, Judge, Take, TangledDex;
    s.PreparedMeans(None, {}, [s.q.root], true);
    RootAlone(s);
  }

  lemma TangledHanded(budget: nat)
    ensures var s, h := TangledRescan(budget), Held({9}, {Target}, {});
            GraphOf(s.g, s.program) && s.Holds(h) && s.Handed(h, 9) == Shown([], [1, 0])
  {
    TangledStarts(budget);
    TangledKept();
    StartsMeans(TangledRescan(budget));
    hide ScanKept, GraphOf, Starts, TangledDex, RootHeld, IdsOf;
  }

  /** The run takes the root, lists the second overload, and is stopped by the last. */
  lemma TangledCourse(budget: nat)
    ensures var s := TangledRescan(budget);
            && Starts(s) && Course(s).Some? && Course(s).value.st.order == [9, 1]
  {
    hide *;
    var s := TangledRescan(budget);
    TangledStarts(budget);
    FirstCallerOnly(Shown([], [1, 0]), 1, 0);
    TangledShown();
    OutsetIs(s);
    StepsNone(s);
    var p := Outset(s);
    StepTaken(s, p, p.held);
    TangledStep(budget);
    CourseReached(s, 1);
  }

  lemma TangledStep(budget: nat)
    requires var s := TangledRescan(budget);
             && Starts(s) && RootHeld(s) == Some(Held({9}, {Target}, {})) && !Outset(s).Over()
             && s.g == TangledGraph() && s.q == TangledQuery() && Outset(s).held == RootHeld(s).value
             && Outset(s).frontiers == [] && Outset(s).st.order == [9] && s.Holds(Outset(s).held) && 9 in Outset(s).held.names
    requires Inside(TangledGraph(), Shown([], [1, 0])) && Start(TangledGraph(), TangledQuery()).Some?
    requires Start(TangledGraph(), TangledQuery()).value.order == [9]
             && 9 in Start(TangledGraph(), TangledQuery()).value.nodes
    requires var g, q := TangledGraph(), TangledQuery(); Expand(g, q, Start(g, q).value, 0, Shown([], [1, 0])).stopped
    ensures var s := TangledRescan(budget); var g, q := TangledGraph(), TangledQuery();
            && Stepped(s, Outset(s), Outset(s).held).st == Expand(g, q, Start(g, q).value, 0, Shown([], [1, 0]))
            && |Stepped(s, Outset(s), Outset(s).held).frontiers| == 1 && Stepped(s, Outset(s), Outset(s).held).Over()
  {
    TangledHanded(budget);
    hide Expand, Starts, RootHeld, Start, TangledGraph, TangledQuery, TangledRescan, Rescan.Handed, Rescan.Holds,
      Inside, GraphOf;
  }

  /** There are no dynamic sites. */
  lemma TangledSites(budget: nat, h: Held, listed: set<Method>)
    ensures TangledRescan(budget).AffordsSites(h, listed)
  {
  }

  lemma ReportNames(g: Graph, q: Query, end: State)
    requires Reportable(g, end) && Listed(q, end) && |end.order| == 2
    ensures Report(g, q, end).Listing?
    ensures forall m :: Names(Report(g, q, end).nodes, m) <==> m == end.order[0] || m == end.order[1]
  {
    hide DiagnoseAll, AllDynamics, NoRepeats, Names;
    forall m ensures Names(NodesOf(end), m) <==> m in end.order {
      NamesAreListed(q, end, m);
    }
  }

  /** Over the index the last overload that calls method 9 is named, and over the rescanning source the
      second one is, whatever its budget. */
  lemma TangledAnswers(budget: nat)
    ensures var s := TangledRescan(budget);
            && GraphOf(s.g, s.program) && Rescanned(s).Some? && Rescanned(s).value.Listing? && Ask(s.g, s.q).Listing?
            && (forall m :: Names(Ask(s.g, s.q).nodes, m) <==> m == 9 || m == 2)
            && (forall m :: Names(Rescanned(s).value.nodes, m) <==> m == 9 || m == 1)
  {
    hide *;
    var s := TangledRescan(budget);
    TangledStarts(budget);
    TangledCourse(budget);
    TangledIndex();
    StartsMeans(s);
    CourseIs(s);
    var p := Course(s).value;
    SaneCounts(s, p);
    TangledSites(budget, p.held, Elements(p.st.order));
    CourseReports(s, p);
    AskIs(s.g, s.q);
    ReportNames(s.g, s.q, Explore(s.g, s.q).value);
    ReportNames(s.g, s.q, p.st);
  }

  lemma AskIs(g: Graph, q: Query)
    requires Known(g, q.root) && Explore(g, q).Some?
    ensures Reportable(g, Explore(g, q).value) && Listed(q, Explore(g, q).value)
    ensures Ask(g, q) == Report(g, q, Explore(g, q).value)
  {
    ExploreIsExplored(g, q);
    ExploredListed(g, q, Explore(g, q).value);
    EdgesAreAnchored(g, q, Explore(g, q).value);
    hide Explore, Report, Known, Explored, Reportable, NoRepeats, AllAnchored;
  }

  /** Over the index the root is taken, the last overload listed, and the second one refused. */
  lemma TangledIndex()
    ensures var g, q := TangledGraph(), TangledQuery(); Explore(g, q).Some? && Explore(g, q).value.order == [9, 2]
  {
    hide *;
    var g, q := TangledGraph(), TangledQuery();
    TangledShown();
    FirstCallerOnly(Shown([], [0, 1]), 0, 1);
    OneTraverse(g, q);
  }

  lemma OneTraverse(g: Graph, q: Query)
    requires Start(g, q).Some? && var st := Start(g, q).value; st.order == [q.root] && q.root in st.nodes
    requires Expand(g, q, Start(g, q).value, 0, IndexShown(g, q, q.root)).stopped
    ensures Explore(g, q) == Some(Expand(g, q, Start(g, q).value, 0, IndexShown(g, q, q.root)))
  {
    hide Expand, IndexShown, NoRepeats;
    var st := Start(g, q).value;
    var after := Expand(g, q, st, 0, IndexShown(g, q, q.root));
    StartListed(g, q);
    ExpandListed(g, q, st, 0, IndexShown(g, q, q.root));
    hide Start, Listed;
    assert Traverse(g, q, after, 1) == after;
  }
}
