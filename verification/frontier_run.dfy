/** A whole run over the rescanning source, as a function of the input, the query and the budget: which
    frontier is at hand when each method is taken, what the answer is, and exactly when it is the one
    over the index. */
module FrontierRuns {
  import opened Bytes
  import opened Sorting
  import opened MethodSelection
  import opened CallGraph
  import opened CallGraphTruth
  import opened CallGraphOrders
  import opened CallSites
  import opened FrontierScans
  import opened CallGraphAnswers

  // ---------------------------------------------------------------------------------------
  // The run
  // ---------------------------------------------------------------------------------------

  /** How far a run has come: the traversal, the frontier at hand, and for every method taken so far
      the frontier that was at hand then. */
  datatype Progress = Progress(st: State, held: Held, frontiers: seq<Held>)
  {
    predicate Over() {
      st.stopped || |frontiers| >= |st.order|
    }
  }

  function SameDepth(nodes: map<Method, Node>, depth: nat): Method -> bool {
    (m: Method) => m in nodes && nodes[m].depth == depth
  }

  /** What a batch is made of: the method at the head of the queue, and those queued at its depth. */
  function Identities(nodes: map<Method, Node>, queue: seq<Method>): (r: seq<Method>)
    requires queue != [] && queue[0] in nodes
    ensures r != [] && r[0] == queue[0]
  {
    [queue[0]] + Filter(queue[1..], SameDepth(nodes, nodes[queue[0]].depth))
  }

  ghost predicate Sane(s: Rescan, p: Progress) {
    GraphOf(s.g, s.program) && Listed(s.q, p.st) && s.Holds(p.held) && |p.frontiers| <= |p.st.order|
  }

  /** The frontier for the next method to be taken, if the source does not give up. */
  ghost function NextHeld(s: Rescan, p: Progress): (r: Option<Held>)
    requires Sane(s, p) && !p.Over()
    ensures r.Some? ==> s.Holds(r.value) && p.st.order[|p.frontiers|] in r.value.names
  {
    var queue := p.st.order[|p.frontiers|..];
    var identities := Identities(p.st.nodes, queue);
    s.PreparedMeans(Some(p.held), p.st.nodes.Keys, identities, false);
    s.Prepared(Some(p.held), p.st.nodes.Keys, identities, false)
  }

  /** Take the next method. */
  ghost function Step(s: Rescan, p: Progress): (r: Option<Progress>)
    requires Sane(s, p)
    ensures r.Some? ==> Sane(s, r.value)
  {
    if p.Over() then Some(p)
    else
      match NextHeld(s, p)
      case None => None
      case Some(h) => StepIsSane(s, p, h); Some(Stepped(s, p, h))
  }

  ghost function Stepped(s: Rescan, p: Progress, h: Held): Progress
    requires Sane(s, p) && !p.Over() && s.Holds(h) && p.st.order[|p.frontiers|] in h.names
  {
    var head := |p.frontiers|;
    Progress(Expand(s.g, s.q, p.st, head, s.Handed(h, p.st.order[head])), h, p.frontiers + [h])
  }

  lemma StepIsSane(s: Rescan, p: Progress, h: Held)
    requires Sane(s, p) && !p.Over() && s.Holds(h) && p.st.order[|p.frontiers|] in h.names
    ensures Sane(s, Stepped(s, p, h))
  {
    hide GraphOf, Expand, NoRepeats;
    var head := |p.frontiers|;
    var shown := s.Handed(h, p.st.order[head]);
    ExpandListed(s.g, s.q, p.st, head, shown);
    ExpandKeepsOrder(s.g, s.q, p.st, head, shown);
  }

  ghost function Steps(s: Rescan, p: Progress, count: nat): (r: Option<Progress>)
    requires Sane(s, p)
    ensures r.Some? ==> Sane(s, r.value)
    decreases count
  {
    if count == 0 then Some(p)
    else
      match Steps(s, p, count - 1)
      case None => None
      case Some(mid) => Step(s, mid)
  }

  /** The frontier the root is looked for in. */
  ghost function RootHeld(s: Rescan): (r: Option<Held>)
    ensures r.Some? ==> s.Holds(r.value) && s.q.root in r.value.names
  {
    s.PreparedMeans(None, {}, [s.q.root], true);
    s.Prepared(None, {}, [s.q.root], true)
  }

  ghost predicate Starts(s: Rescan) {
    GraphOf(s.g, s.program) && RootHeld(s).Some? && Start(s.g, s.q).Some?
  }

  ghost function Outset(s: Rescan): (r: Progress)
    requires Starts(s)
    ensures Sane(s, r)
  {
    StartListed(s.g, s.q);
    Progress(Start(s.g, s.q).value, RootHeld(s).value, [])
  }

  /** The run until it is over, which takes no more methods than may be listed. */
  ghost function Course(s: Rescan): (r: Option<Progress>)
    requires Starts(s)
    ensures r.Some? ==> Sane(s, r.value)
  {
    Steps(s, Outset(s), s.q.maxEdges + 1)
  }

  /** The answer over the rescanning source, unless it gives up. */
  ghost function Rescanned(s: Rescan): Option<Answer>
    requires GraphOf(s.g, s.program)
  {
    if RootHeld(s) == None then None
    else if !Known(s.g, s.q.root) then Some(NotFound)
    else if Start(s.g, s.q).None? then Some(RootTooLarge)
    else
      match Course(s)
      case None => None
      case Some(p) =>
        CourseIsExplored(s);
        ExploredListed(s.g, s.q, p.st);
        if s.AffordsSites(p.held, Elements(p.st.order)) then Some(Report(s.g, s.q, p.st)) else None
  }

  // ---------------------------------------------------------------------------------------
  // What every run keeps
  // ---------------------------------------------------------------------------------------

  /** After so many steps: as many methods have been taken, unless it is over. */
  lemma {:induction false} StepsCount(s: Rescan, count: nat)
    requires Starts(s) && Steps(s, Outset(s), count).Some?
    ensures var p := Steps(s, Outset(s), count).value;
            |p.frontiers| <= count && (p.Over() || |p.frontiers| == count)
  {
    hide Step, Starts, Sane;
    if count > 0 {
      StepsCount(s, count - 1);
      StepCounts(s, Steps(s, Outset(s), count - 1).value);
    }
  }

  lemma StepCounts(s: Rescan, p: Progress)
    requires Sane(s, p) && Step(s, p).Some?
    ensures if p.Over() then Step(s, p).value == p else |Step(s, p).value.frontiers| == |p.frontiers| + 1
  {
    hide Sane, NextHeld, Expand;
  }

  /** What is over stays as it is. */
  lemma {:induction false} StepsStay(s: Rescan, p: Progress, count: nat, more: nat)
    requires Sane(s, p) && Steps(s, p, count).Some? && Steps(s, p, count).value.Over()
    ensures Steps(s, p, count + more) == Steps(s, p, count)
  {
    hide Sane, NextHeld, Stepped, Progress.Over;
    if more > 0 {
      StepsStay(s, p, count, more - 1);
      StepOver(s, Steps(s, p, count).value);
    }
  }

  lemma StepOver(s: Rescan, p: Progress)
    requires Sane(s, p) && p.Over()
    ensures Step(s, p) == Some(p)
  {
  }

  /** The course is over. */
  lemma CourseEnds(s: Rescan)
    requires Starts(s) && Course(s).Some?
    ensures Course(s).value.Over()
  {
    CourseIs(s);
    hide *;
    StepsCount(s, s.q.maxEdges + 1);
    OverAtLimit(s, Course(s).value);
  }

  lemma CourseIs(s: Rescan)
    requires Starts(s)
    ensures Course(s) == Steps(s, Outset(s), s.q.maxEdges + 1)
    ensures Course(s).Some? ==> Sane(s, Course(s).value)
  {
    hide Starts, Steps, Outset, Sane;
  }

  /** Every method listed but the root brought an edge. */
  lemma OverAtLimit(s: Rescan, p: Progress)
    requires Sane(s, p) && (p.Over() || |p.frontiers| == s.q.maxEdges + 1)
    ensures p.Over()
  {
    hide GraphOf, NoRepeats, Rescan.Holds;
  }

  /** Every method is taken with something fair. */
  lemma {:induction false} StepsVisit(s: Rescan, count: nat) returns (shown: seq<Shown>)
    requires Starts(s) && Steps(s, Outset(s), count).Some?
    ensures var p := Steps(s, Outset(s), count).value;
            |shown| == |p.frontiers| && Visits(s.g, s.q, Outset(s).st, 0, shown, p.st)
  {
    hide Step, Starts, Sane, Visits;
    if count == 0 {
      shown := [];
      VisitsNothing(s.g, s.q, Outset(s).st);
    } else {
      var before := StepsVisit(s, count - 1);
      shown := StepVisits(s, Outset(s).st, before, Steps(s, Outset(s), count - 1).value);
    }
  }

  lemma VisitsNothing(g: Graph, q: Query, st: State)
    ensures Visits(g, q, st, 0, [], st)
  {
  }

  lemma StepVisits(s: Rescan, st: State, before: seq<Shown>, p: Progress) returns (shown: seq<Shown>)
    requires Sane(s, p) && Step(s, p).Some? && |before| == |p.frontiers| && Visits(s.g, s.q, st, 0, before, p.st)
    ensures |shown| == |Step(s, p).value.frontiers| && Visits(s.g, s.q, st, 0, shown, Step(s, p).value.st)
  {
    hide Expand, Fair, GraphOf, Visits, NoRepeats, Rescan.Holds, NextHeld, Rescan.Handed;
    shown := before;
    if !p.Over() {
      var m := p.st.order[|before|];
      var handed := s.Handed(NextHeld(s, p).value, m);
      VisitsAppend(s.g, s.q, st, 0, before, p.st, handed);
      shown := before + [handed];
    }
  }

  lemma CourseIsExplored(s: Rescan)
    requires Starts(s) && Course(s).Some?
    ensures Explored(s.g, s.q, Course(s).value.st)
  {
    CourseEnds(s);
    var shown := StepsVisit(s, s.q.maxEdges + 1);
    hide Steps, Visits, Sane, GraphOf, RootHeld;
    assert |Course(s).value.frontiers| <= |Course(s).value.st.order| by {
      assert Sane(s, Course(s).value);
      SaneCounts(s, Course(s).value);
    }
    assert Ended(s.g, s.q, shown, Course(s).value.st);
  }

  lemma SaneCounts(s: Rescan, p: Progress)
    requires Sane(s, p)
    ensures Listed(s.q, p.st) && |p.frontiers| <= |p.st.order| && s.Holds(p.held) && GraphOf(s.g, s.program)
  {
  }

  /** Whatever the frontiers, an answer over the rescanning source is one the whole graph allows. */
  lemma RescannedAnswers(s: Rescan)
    requires GraphOf(s.g, s.program) && Rescanned(s).Some?
    ensures Answers(s.g, s.q, Rescanned(s).value)
  {
    hide GraphOf, Course, DiagnoseAll, AllDynamics, Known, Explored, Start, Rescan.AffordsSites;
    if RootHeld(s).Some? && Known(s.g, s.q.root) && Start(s.g, s.q).Some? {
      CourseIsExplored(s);
      ExploredListed(s.g, s.q, Course(s).value.st);
      assert Reports(s.g, s.q, Course(s).value.st, Rescanned(s).value);
    }
  }

  // ---------------------------------------------------------------------------------------
  // Giving up
  // ---------------------------------------------------------------------------------------

  /** The source is asked for a method that it does not have at hand and that does not fit alone. */
  ghost predicate Stuck(s: Rescan, p: Progress) {
    && !p.Over() && p.st.order[|p.frontiers|] !in p.held.names
    && !s.Affords(p.st.nodes.Keys, {p.st.order[|p.frontiers|]}, s.Asked(false))
  }

  /** The root is scanned for alone, so it is found exactly when it fits alone. */
  lemma RootExactly(s: Rescan)
    ensures RootHeld(s) == None <==> !s.Affords({}, {s.q.root}, s.Asked(true))
  {
    hide Rescan.Affords;
    FirstAlone(s.q.root);
  }

  /** Why the source gives up: the root does not fit alone; or when some methods have been taken the
      next one is not at hand and does not fit alone beside what is listed; or when it is over the
      dynamic sites of the listed methods do not fit beside the frontier at hand. */
  ghost predicate GivesUp(s: Rescan) {
    || !s.Affords({}, {s.q.root}, s.Asked(true))
    || (Starts(s) && exists count :: StuckAfter(s, count))
    || (Starts(s) && Course(s).Some? && !s.AffordsSites(Course(s).value.held, Elements(Course(s).value.st.order)))
  }

  ghost predicate StuckAfter(s: Rescan, count: nat)
    requires Starts(s)
  {
    Steps(s, Outset(s), count).Some? && Stuck(s, Steps(s, Outset(s), count).value)
  }

  lemma {:induction false} NoCourseIsStuck(s: Rescan, count: nat) returns (before: nat)
    requires Starts(s) && Steps(s, Outset(s), count) == None
    ensures StuckAfter(s, before)
  {
    hide Step, Starts, Sane, Stuck, Outset;
    if Steps(s, Outset(s), count - 1) == None {
      before := NoCourseIsStuck(s, count - 1);
    } else {
      before := count - 1;
      NoStepIsStuck(s, Steps(s, Outset(s), count - 1).value);
    }
  }

  lemma NoStepIsStuck(s: Rescan, p: Progress)
    requires Sane(s, p) && Step(s, p) == None
    ensures Stuck(s, p)
  {
    hide GraphOf, Rescan.Affords, Rescan.Prepared, NoRepeats;
    var queue := p.st.order[|p.frontiers|..];
    s.PreparedMeans(Some(p.held), p.st.nodes.Keys, Identities(p.st.nodes, queue), false);
  }

  lemma GivesUpMeans(s: Rescan)
    requires GraphOf(s.g, s.program) && Rescanned(s) == None
    ensures GivesUp(s)
  {
    hide GraphOf, Report, Known, Start, Rescan.AffordsSites, Rescan.Affords, Rescan.Prepared, StuckAfter, Steps;
    s.PreparedMeans(None, {}, [s.q.root], true);
    if Starts(s) && Course(s) == None {
      var count := NoCourseIsStuck(s, s.q.maxEdges + 1);
      assert StuckAfter(s, count);
    }
  }

  // ---------------------------------------------------------------------------------------
  // What a run leaves behind
  // ---------------------------------------------------------------------------------------

  lemma ExpandGrows(g: Graph, q: Query, st: State, head: nat, shown: Shown)
    requires CallGraphTruth.Run(g, q, st, head) && head < |st.order| && !st.stopped && Fair(g, q, st.order[head], shown)
    ensures st.order[head] in st.nodes && Inside(g, shown)
    ensures var after := Expand(g, q, st, head, shown);
            && st.order <= after.order && st.edges <= after.edges
            && forall m :: m in st.nodes ==> m in after.nodes && after.DepthOf(m) == st.DepthOf(m)
  {
    ExpandFinishes(g, q, st, head, shown);
    var (mid, boundary) := VisitColumns(g, q, st, st.DepthOf(st.order[head]), q.Columns(), shown, false);
    FinishGrows(g, q, st, head, mid, boundary, Expand(g, q, st, head, shown));
    hide *;
  }

  lemma FinishGrows(g: Graph, q: Query, st: State, head: nat, mid: State, boundary: bool, after: State)
    requires Finishes(g, q, st, head, mid, boundary, after)
    ensures st.order <= after.order && st.edges <= after.edges
    ensures forall m :: m in st.nodes ==> m in after.nodes && after.DepthOf(m) == st.DepthOf(m)
  {
    hide Sound, Frozen, BelowDepth, CallGraphTruth.Run, Covered;
  }

  /** The later run goes on from the earlier one. */
  ghost predicate Before(p: Progress, later: Progress) {
    && p.frontiers <= later.frontiers && p.st.order <= later.st.order && p.st.edges <= later.st.edges
    && forall m :: m in p.st.nodes ==> m in later.st.nodes && later.st.DepthOf(m) == p.st.DepthOf(m)
  }

  /** The invariant of the traversal holds along the run, and every edge was shown by a method taken. */
  ghost predicate OnCourse(s: Rescan, p: Progress) {
    && Sane(s, p) && CallGraphTruth.Run(s.g, s.q, p.st, |p.frontiers|) && Touched(s.g, s.q, p.st, |p.frontiers|)
  }

  lemma StepOnCourse(s: Rescan, p: Progress)
    requires OnCourse(s, p) && Step(s, p).Some?
    ensures OnCourse(s, Step(s, p).value) && Before(p, Step(s, p).value)
  {
    hide GraphOf, CallGraphTruth.Run, Touched, Expand, NoRepeats, NextHeld, Rescan.Handed, Fair, Rescan.Holds;
    if !p.Over() {
      var head := |p.frontiers|;
      var shown := s.Handed(NextHeld(s, p).value, p.st.order[head]);
      ExpandRuns(s.g, s.q, p.st, head, shown);
      ExpandGrows(s.g, s.q, p.st, head, shown);
      ExpandTouched(s.g, s.q, p.st, head, shown);
    }
  }

  lemma OutsetOnCourse(s: Rescan)
    requires Starts(s)
    ensures OnCourse(s, Outset(s))
  {
    StartRuns(s.g, s.q);
    StartTouched(s.g, s.q);
    hide CallGraphTruth.Run, Touched, GraphOf, NoRepeats;
  }

  lemma {:induction false} StepsOnCourse(s: Rescan, count: nat)
    requires Starts(s) && Steps(s, Outset(s), count).Some?
    ensures OnCourse(s, Steps(s, Outset(s), count).value)
  {
    hide Step, Starts, Sane, OnCourse, Before;
    if count == 0 {
      OutsetOnCourse(s);
    } else {
      StepsOnCourse(s, count - 1);
      StepOnCourse(s, Steps(s, Outset(s), count - 1).value);
    }
  }

  lemma BeforeAgain(a: Progress, b: Progress, c: Progress)
    requires Before(a, b) && Before(b, c)
    ensures Before(a, c)
  {
  }

  lemma {:induction false} StepsGrow(s: Rescan, count: nat, more: nat)
    requires Starts(s) && Steps(s, Outset(s), count + more).Some?
    ensures Steps(s, Outset(s), count).Some?
    ensures Before(Steps(s, Outset(s), count).value, Steps(s, Outset(s), count + more).value)
  {
    hide Step, Starts, Sane, OnCourse, Before;
    if more == 0 {
      BeforeSelf(Steps(s, Outset(s), count).value);
    } else {
      StepsGrow(s, count, more - 1);
      StepsOnCourse(s, count + more - 1);
      var mid := Steps(s, Outset(s), count + more - 1).value;
      StepOnCourse(s, mid);
      BeforeAgain(Steps(s, Outset(s), count).value, mid, Steps(s, Outset(s), count + more).value);
    }
  }

  lemma BeforeSelf(p: Progress)
    ensures Before(p, p)
  {
  }

  // ---------------------------------------------------------------------------------------
  // Beside the index
  // ---------------------------------------------------------------------------------------

  lemma PickStep(g: Graph, ids: seq<nat>, p: Site -> bool)
    requires ids != [] && ids[0] < |g.sites|
    ensures Pick(g, ids, p) == (if p(g.sites[ids[0]]) then [ids[0]] else []) + Pick(g, ids[1..], p)
  {
  }

  /** Call sites by number, or as they are: what is kept of them is the same. */
  lemma {:induction false} SitesOfPick(g: Graph, ids: seq<nat>, p: Site -> bool)
    requires forall i :: 0 <= i < |ids| ==> ids[i] < |g.sites|
    ensures forall i :: 0 <= i < |Pick(g, ids, p)| ==> Pick(g, ids, p)[i] < |g.sites|
    ensures SitesOf(g, Pick(g, ids, p)) == Filter(SitesOf(g, ids), p)
  {
    if ids != [] {
      PickStep(g, ids, p);
      SitesOfPick(g, ids[1..], p);
      assert SitesOf(g, ids)[1..] == SitesOf(g, ids[1..]);
      hide Pick;
      var rest := Pick(g, ids[1..], p);
      if p(g.sites[ids[0]]) {
        assert SitesOf(g, [ids[0]] + rest) == [g.sites[ids[0]]] + SitesOf(g, rest);
      } else {
        assert [] + rest == rest;
      }
    }
  }

  lemma SitesOfIds(g: Graph, sites: seq<Site>)
    requires forall i :: 0 <= i < |sites| ==> sites[i] in g.sites
    ensures forall i :: 0 <= i < |IdsOf(g, sites)| ==> IdsOf(g, sites)[i] < |g.sites|
    ensures SitesOf(g, IdsOf(g, sites)) == sites
  {
  }

  lemma FrontIsWhole(sites: seq<Site>, limit: nat)
    ensures |Front(sites, limit)| < limit ==> Front(sites, limit) == sites
  {
  }

  /** Late calls are calls. */
  lemma LateCalls(sites: seq<Site>, q: Query, taken: seq<Method>, m: Method)
    ensures Filter(Filter(sites, EndIs(Target, m)), Late(q, taken, m)) == Filter(sites, Late(q, taken, m))
  {
    FilterFilter(sites, EndIs(Target, m), Late(q, taken, m));
    FilterSame(sites, MethodSelection.Both(EndIs(Target, m), Late(q, taken, m)), Late(q, taken, m));
  }

  /** The calls to a method, when they are no more than the edges there may be. */
  lemma IndexCalls(s: Rescan, m: Method, p: Site -> bool)
    requires GraphOf(s.g, s.program) && |Adjacent(s.g, s.q, Target, m)| <= s.q.maxEdges
    ensures var ids := Pick(s.g, Adjacent(s.g, s.q, Target, m), p);
            && (forall i :: 0 <= i < |ids| ==> ids[i] < |s.g.sites|)
            && SitesOf(s.g, ids) == Filter(Filter(Sites(s.program), EndIs(Target, m)), p)
  {
    hide *;
    GraphSites(s.g, s.program);
    KeptIsAdjacent(s.g, s.q, Target, m);
    AllKeptIsFront(s.g, Target, m, s.q.maxEdges + 1);
    PickWhole(s.g, Adjacent(s.g, s.q, Target, m), Filter(Sites(s.program), EndIs(Target, m)), p, s.q.maxEdges + 1);
  }

  /** What is kept of the front of some call sites is the whole when it is short. */
  lemma PickWhole(g: Graph, ids: seq<nat>, all: seq<Site>, p: Site -> bool, limit: nat)
    requires forall i :: 0 <= i < |ids| ==> ids[i] < |g.sites|
    requires SitesOf(g, ids) == Front(all, limit) && |ids| < limit
    ensures forall i :: 0 <= i < |Pick(g, ids, p)| ==> Pick(g, ids, p)[i] < |g.sites|
    ensures SitesOf(g, Pick(g, ids, p)) == Filter(all, p)
  {
    hide *;
    FrontIsWhole(all, limit);
    SitesOfPick(g, ids, p);
  }

  lemma GraphSites(g: Graph, program: seq<Dex>)
    requires GraphOf(g, program)
    ensures g.sites == Sites(program)
  {
    hide Sites, AllDeclared, Addressed;
  }

  lemma AllKeptIsFront(g: Graph, column: Column, m: Method, limit: nat)
    ensures Kept(g, column, m, 0, limit) == Front(Filter(g.sites, EndIs(column, m)), limit)
  {
    KeptIsFront(g, column, m, 0, limit);
    assert g.sites[0..] == g.sites;
  }

  lemma HandedCalls(s: Rescan, h: Held, m: Method, p: Site -> bool)
    requires GraphOf(s.g, s.program) && s.Holds(h) && m in h.names && Target in s.q.Columns()
    requires |s.Handed(h, m).target| <= s.q.maxEdges
    ensures var ids := Pick(s.g, s.Handed(h, m).target, p);
            && (forall i :: 0 <= i < |ids| ==> ids[i] < |s.g.sites|)
            && SitesOf(s.g, ids) == Filter(Filter(Scanned(s.program, h.names, h.columns), EndIs(Target, m)), p)
  {
    var kept := ScanKept(s.g, s.program, h.names, h.columns, Target, m, s.Cap());
    ScanKeptIsFront(s.g, s.program, h.names, h.columns, Target, m, s.Cap());
    ScanKeptIsFair(s.g, s.program, h.names, h.columns, Target, m, s.Cap());
    assert s.Handed(h, m).target == IdsOf(s.g, kept);
    hide ScanKept, Scanned, Filter, Front, GraphOf, EndIs, Rescan.Handed, AllDistinct, Rescan.Holds, Pick;
    assert forall i :: 0 <= i < |kept| ==> kept[i] in kept;
    SitesOfIds(s.g, kept);
    PickWhole(s.g, IdsOf(s.g, kept), Filter(Scanned(s.program, h.names, h.columns), EndIs(Target, m)), p, s.Cap());
  }

  /** The late calls to a method come in the order of the index exactly when no callers of its
      frontier that make one change places. */
  lemma LateExactly(s: Rescan, h: Held, m: Method, taken: seq<Method>)
    requires GraphOf(s.g, s.program) && s.Holds(h) && m in h.names && Target in s.q.Columns()
    requires |Adjacent(s.g, s.q, Target, m)| <= s.q.maxEdges && |s.Handed(h, m).target| <= s.q.maxEdges
    ensures var late := Late(s.q, taken, m);
            Pick(s.g, Adjacent(s.g, s.q, Target, m), late) == Pick(s.g, s.Handed(h, m).target, late) <==>
            !Shuffles(s.program, h.names, h.columns, late)
  {
    var late := Late(s.q, taken, m);
    var few, all := Pick(s.g, s.Handed(h, m).target, late), Pick(s.g, Adjacent(s.g, s.q, Target, m), late);
    IndexCalls(s, m, late);
    HandedCalls(s, h, m, late);
    LateCalls(Sites(s.program), s.q, taken, m);
    LateCalls(Scanned(s.program, h.names, h.columns), s.q, taken, m);
    assert Among(late, h.names, h.columns);
    AddressedIsDistinct(s.g);
    hide Late, Filter, Scanned, Sites, Adjacent, Rescan.Handed, Shuffles, Addressed, AllDistinct, Pick, Among, EndIs,
      Rescan.Holds;
    ColumnOrder(s.program, h.names, h.columns, late);
    IdsOfSites(s.g, few);
    IdsOfSites(s.g, all);
  }

  /** Taking the next method with what is handed over leads where the index does. */
  ghost predicate Keeps(s: Rescan, p: Progress, h: Held)
    requires Sane(s, p) && !p.Over() && s.Holds(h) && p.st.order[|p.frontiers|] in h.names
  {
    Stepped(s, p, h).st == ByIndex(s, p)
  }

  ghost function ByIndex(s: Rescan, p: Progress): State
    requires Sane(s, p) && !p.Over()
  {
    Expand(s.g, s.q, p.st, |p.frontiers|, IndexShown(s.g, s.q, p.st.order[|p.frontiers|]))
  }

  /** At the depth the order does not matter. */
  lemma KeepsAtDepth(s: Rescan, p: Progress, h: Held)
    requires OnCourse(s, p) && !p.Over() && s.Holds(h) && p.st.order[|p.frontiers|] in h.names
    requires p.st.DepthOf(p.st.order[|p.frontiers|]) == s.q.depth
    ensures Keeps(s, p, h)
  {
    var head, m := |p.frontiers|, p.st.order[|p.frontiers|];
    IndexIsFair(s.g, s.q, m);
    hide GraphOf, CallGraphTruth.Run, Touched, Expand, NoRepeats, Rescan.Handed, Fair, Rescan.Holds, IndexShown;
    ExpandAtDepth(s.g, s.q, p.st, head, s.Handed(h, m), IndexShown(s.g, s.q, m));
  }

  lemma FairInside(g: Graph, q: Query, m: Method, shown: Shown)
    requires Fair(g, q, m, shown)
    ensures Inside(g, shown)
  {
  }

  lemma SteadyAgrees(s: Rescan, h: Held, m: Method, st: State, head: nat)
    requires GraphOf(s.g, s.program) && s.Holds(h) && m in h.names
    requires Target in s.q.Columns() ==> Steady(s.program, h.names, h.columns, m)
    requires head < |st.order| && st.order[head] in st.nodes
    ensures Inside(s.g, s.Handed(h, m))
    ensures Expand(s.g, s.q, st, head, s.Handed(h, m)) == Expand(s.g, s.q, st, head, IndexShown(s.g, s.q, m))
  {
    hide *;
    forall column | column in s.q.Columns() ensures s.Handed(h, m).In(column) == IndexShown(s.g, s.q, m).In(column) {
      s.HandedIsIndexed(h, m, column);
    }
    FairInside(s.g, s.q, m, s.Handed(h, m));
    ExpandAgrees(s.g, s.q, st, head, s.Handed(h, m), IndexShown(s.g, s.q, m));
  }

  lemma NextListed(s: Rescan, p: Progress)
    requires Sane(s, p) && !p.Over()
    ensures GraphOf(s.g, s.program) && |p.frontiers| < |p.st.order| && p.st.order[|p.frontiers|] in p.st.nodes
            && !p.st.stopped
  {
    hide GraphOf, NoRepeats, Rescan.Holds;
  }

  /** Nor does it when no callers of the method change places, under any budgets. */
  lemma KeepsWhenSteady(s: Rescan, p: Progress, h: Held)
    requires OnCourse(s, p) && !p.Over() && s.Holds(h) && p.st.order[|p.frontiers|] in h.names
    requires Target in s.q.Columns() ==> Steady(s.program, h.names, h.columns, p.st.order[|p.frontiers|])
    ensures Keeps(s, p, h)
  {
    NextListed(s, p);
    hide GraphOf, CallGraphTruth.Run, Touched, Expand, Rescan.Handed, Rescan.Holds, Steady, IndexShown,
      Query.Columns, Listed;
    SteadyAgrees(s, h, p.st.order[|p.frontiers|], p.st, |p.frontiers|);
  }

  /** The callers of a method, other than those already taken when calls are followed both ways, keep
      their places in the scan for its frontier. */
  ghost predicate Unmoved(s: Rescan, h: Held, taken: seq<Method>, m: Method) {
    !Shuffles(s.program, h.names, h.columns, Late(s.q, taken, m))
  }

  lemma BelowDepthRivals(s: Rescan, p: Progress, h: Held)
    requires OnCourse(s, p) && !p.Over() && s.Holds(h) && p.st.order[|p.frontiers|] in h.names
    requires p.st.DepthOf(p.st.order[|p.frontiers|]) < s.q.depth && Target in s.q.Columns() && !ByIndex(s, p).stopped
    ensures var m := p.st.order[|p.frontiers|];
            Rivals(s.g, s.q, p.st, |p.frontiers|, IndexShown(s.g, s.q, m), s.Handed(h, m))
  {
    var m := p.st.order[|p.frontiers|];
    IndexIsFair(s.g, s.q, m);
    hide GraphOf, CallGraphTruth.Run, Touched, Expand, NoRepeats, Rescan.Handed, FairIn, Rescan.Holds, Adjacent;
    if Source in s.q.Columns() {
      s.HandedIsIndexed(h, m, Source);
    }
  }

  lemma LateIsUnmoved(s: Rescan, p: Progress, h: Held)
    requires OnCourse(s, p) && !p.Over() && s.Holds(h) && p.st.order[|p.frontiers|] in h.names
    requires p.st.DepthOf(p.st.order[|p.frontiers|]) < s.q.depth && Target in s.q.Columns() && !ByIndex(s, p).stopped
    ensures var m, taken := p.st.order[|p.frontiers|], p.st.order[..|p.frontiers| + 1];
            var late := Late(s.q, taken, m);
            Pick(s.g, IndexShown(s.g, s.q, m).target, late) == Pick(s.g, s.Handed(h, m).target, late) <==>
            Unmoved(s, h, taken, m)
  {
    var m := p.st.order[|p.frontiers|];
    BelowDepthRivals(s, p, h);
    RivalsShow(s.g, s.q, p.st, |p.frontiers|, IndexShown(s.g, s.q, m), s.Handed(h, m));
    hide CallGraphTruth.Run, Touched, Expand, NoRepeats, Rescan.Handed, FairIn, Rescan.Holds, Adjacent, Rivals, Pick,
      Late, GraphOf;
    LateExactly(s, h, m, p.st.order[..|p.frontiers| + 1]);
  }

  /** Below the depth, and when no budget stops the index there: it does not matter when no callers
      that may show change places. */
  lemma KeepsWhenUnmoved(s: Rescan, p: Progress, h: Held)
    requires OnCourse(s, p) && !p.Over() && s.Holds(h) && p.st.order[|p.frontiers|] in h.names
    requires p.st.DepthOf(p.st.order[|p.frontiers|]) < s.q.depth && Target in s.q.Columns() && !ByIndex(s, p).stopped
    requires Unmoved(s, h, p.st.order[..|p.frontiers| + 1], p.st.order[|p.frontiers|])
    ensures Keeps(s, p, h)
  {
    var m := p.st.order[|p.frontiers|];
    LateIsUnmoved(s, p, h);
    BelowDepthRivals(s, p, h);
    hide CallGraphTruth.Run, Touched, Expand, NoRepeats, Rescan.Handed, FairIn, Rescan.Holds, Adjacent, Rivals, Pick,
      Late, GraphOf, Unmoved;
    RivalsAgree(s.g, s.q, p.st, |p.frontiers|, IndexShown(s.g, s.q, m), s.Handed(h, m));
  }

  /** And only then, as far as the edges listed in the end tell. */
  lemma UnmovedWhenListed(s: Rescan, p: Progress, h: Held, all: seq<nat>)
    requires OnCourse(s, p) && !p.Over() && s.Holds(h) && p.st.order[|p.frontiers|] in h.names
    requires p.st.DepthOf(p.st.order[|p.frontiers|]) < s.q.depth && Target in s.q.Columns() && !ByIndex(s, p).stopped
    requires var next := Stepped(s, p, h).st;
             ByIndex(s, p).edges <= all && next.edges <= all && (next.stopped ==> next.edges == all)
    ensures Unmoved(s, h, p.st.order[..|p.frontiers| + 1], p.st.order[|p.frontiers|])
  {
    hide *;
    SaneAlong(s, p);
    NextListed(s, p);
    LateIsUnmoved(s, p, h);
    BelowDepthRivals(s, p, h);
    FairInside(s.g, s.q, p.st.order[|p.frontiers|], s.Handed(h, p.st.order[|p.frontiers|]));
    ShownByIndex(s, p);
    ShownByScan(s, p, h);
    var m := p.st.order[|p.frontiers|];
    RivalsForced(s.g, s.q, p.st, |p.frontiers|, IndexShown(s.g, s.q, m), s.Handed(h, m), all);
  }

  lemma ShownByIndex(s: Rescan, p: Progress)
    requires Sane(s, p) && !p.Over() && p.st.order[|p.frontiers|] in p.st.nodes
    ensures ByIndex(s, p) == Expand(s.g, s.q, p.st, |p.frontiers|, IndexShown(s.g, s.q, p.st.order[|p.frontiers|]))
  {
  }

  lemma ShownByScan(s: Rescan, p: Progress, h: Held)
    requires Sane(s, p) && !p.Over() && s.Holds(h) && p.st.order[|p.frontiers|] in h.names
    requires Inside(s.g, s.Handed(h, p.st.order[|p.frontiers|])) && p.st.order[|p.frontiers|] in p.st.nodes
    ensures Stepped(s, p, h).st == Expand(s.g, s.q, p.st, |p.frontiers|, s.Handed(h, p.st.order[|p.frontiers|]))
  {
  }

  // ---------------------------------------------------------------------------------------
  // Exactly when the answers agree
  // ---------------------------------------------------------------------------------------

  /** The method taken at a position lies below the depth, and the query follows calls back. */
  ghost predicate Asks(s: Rescan, p: Progress, i: nat) {
    i < |p.frontiers| && i < |p.st.order| && p.st.DepthOf(p.st.order[i]) < s.q.depth && Target in s.q.Columns()
  }

  ghost predicate SteadyAt(s: Rescan, p: Progress, i: nat) {
    Asks(s, p, i) ==> Steady(s.program, p.frontiers[i].names, p.frontiers[i].columns, p.st.order[i])
  }

  ghost predicate UnmovedAt(s: Rescan, p: Progress, i: nat) {
    Asks(s, p, i) ==> Unmoved(s, p.frontiers[i], p.st.order[..i + 1], p.st.order[i])
  }

  /** No method is taken below the depth whose callers change places in the scan for its frontier. */
  ghost predicate SteadyCourse(s: Rescan, p: Progress) {
    forall i: nat :: SteadyAt(s, p, i)
  }

  /** The same, of the callers that may still show. */
  ghost predicate UnmovedCourse(s: Rescan, p: Progress) {
    forall i: nat :: UnmovedAt(s, p, i)
  }

  /** A budget stops the traversal over the index. */
  ghost predicate IndexStops(s: Rescan) {
    Explore(s.g, s.q).Some? && Explore(s.g, s.q).value.stopped
  }

  /** Nothing that may show changes places: no callers at all, under any budgets; or no late ones, and
      no budget stops the index. */
  ghost predicate Undisturbed(s: Rescan, p: Progress) {
    SteadyCourse(s, p) || (UnmovedCourse(s, p) && !IndexStops(s))
  }

  lemma BeforeAlike(s: Rescan, p: Progress, later: Progress, i: nat)
    requires Before(p, later) && Listed(s.q, p.st) && i < |p.frontiers| <= |p.st.order|
    ensures SteadyAt(s, p, i) <==> SteadyAt(s, later, i)
    ensures UnmovedAt(s, p, i) <==> UnmovedAt(s, later, i)
  {
    hide Steady, Unmoved, NoRepeats;
    assert p.st.order[i] == later.st.order[i] && p.st.order[i] in p.st.order;
    assert p.st.order[..i + 1] == later.st.order[..i + 1];
  }

  /** The traversal over the index goes on from here to its end. */
  ghost predicate Joins(s: Rescan, p: Progress) {
    Sane(s, p) && Start(s.g, s.q).Some? && Traverse(s.g, s.q, p.st, |p.frontiers|) == Explore(s.g, s.q).value
  }

  lemma OutsetJoins(s: Rescan)
    requires Starts(s)
    ensures Joins(s, Outset(s))
  {
    StartListed(s.g, s.q);
    hide GraphOf, Traverse, NoRepeats;
  }

  lemma StepJoins(s: Rescan, p: Progress, h: Held)
    requires Joins(s, p) && !p.Over() && s.Holds(h) && p.st.order[|p.frontiers|] in h.names && Keeps(s, p, h)
    ensures Joins(s, Stepped(s, p, h))
  {
    StepIsSane(s, p, h);
    hide GraphOf, Expand, NoRepeats, Rescan.Handed, Rescan.Holds, IndexShown, Explore, Start;
  }

  /** What the index lists after the next method stays listed, and when a budget stops it there that
      is its end. */
  lemma IndexGoesOn(s: Rescan, p: Progress)
    requires Joins(s, p) && !p.Over()
    ensures Explore(s.g, s.q).Some? && ByIndex(s, p).edges <= Explore(s.g, s.q).value.edges
    ensures ByIndex(s, p).stopped ==> IndexStops(s)
  {
    var head := |p.frontiers|;
    var shown := IndexShown(s.g, s.q, p.st.order[head]);
    ExpandListed(s.g, s.q, p.st, head, shown);
    hide GraphOf, Expand, NoRepeats, Rescan.Holds, IndexShown, Explore, Start;
    TraverseGrows(s.g, s.q, ByIndex(s, p), head + 1);
  }

  lemma {:induction false} TraverseGrows(g: Graph, q: Query, st: State, head: nat)
    requires Listed(q, st)
    ensures st.edges <= Traverse(g, q, st, head).edges
    decreases q.maxEdges + 1 - head
  {
    hide NoRepeats, IndexShown, Expand;
    if head < |st.order| && !st.stopped {
      var shown := IndexShown(g, q, st.order[head]);
      ExpandListed(g, q, st, head, shown);
      ExpandKeepsEdges(g, q, st, head, shown);
      TraverseGrows(g, q, Expand(g, q, st, head, shown), head + 1);
    }
  }

  lemma {:induction false} ColumnKeepsEdges(g: Graph, q: Query, st: State, distance: nat, column: Column, ids: seq<nat>)
    requires forall i :: 0 <= i < |ids| ==> ids[i] < |g.sites|
    ensures st.edges <= VisitColumn(g, q, st, distance, column, ids).0.edges
    decreases |ids|
  {
    hide Judge, Size;
    if ids != [] {
      ColumnKeepsEdges(g, q, VisitEdge(g, q, st, distance, column, ids[0]).0, distance, column, ids[1..]);
    }
  }

  lemma {:induction false} ColumnsKeepEdges(g: Graph, q: Query, st: State, distance: nat, columns: seq<Column>, shown: Shown,
                                            boundary: bool)
    requires Inside(g, shown)
    ensures st.edges <= VisitColumns(g, q, st, distance, columns, shown, boundary).0.edges
    decreases |columns|
  {
    hide VisitColumn;
    if columns != [] {
      ColumnKeepsEdges(g, q, st, distance, columns[0], shown.In(columns[0]));
      var (after, flow) := VisitColumn(g, q, st, distance, columns[0], shown.In(columns[0]));
      if flow != Stop {
        ColumnsKeepEdges(g, q, after, distance, columns[1..], shown, boundary || flow == Boundary);
      }
    }
  }

  lemma ExpandKeepsEdges(g: Graph, q: Query, st: State, head: nat, shown: Shown)
    requires head < |st.order| && st.order[head] in st.nodes && Inside(g, shown)
    ensures st.edges <= Expand(g, q, st, head, shown).edges
  {
    hide VisitColumns;
    ColumnsKeepEdges(g, q, st, st.nodes[st.order[head]].depth, q.Columns(), shown, false);
  }

  lemma DepthAtMost(s: Rescan, p: Progress)
    requires OnCourse(s, p) && !p.Over()
    ensures p.st.DepthOf(p.st.order[|p.frontiers|]) <= s.q.depth
  {
    hide GraphOf, Touched, NoRepeats, StatusesRight, ReasonsRight, BoundariesAtDepth, Layered, AllAnchored, Closed,
      AtDistance;
  }

  /** The next method of a steady course is taken as over the index. */
  lemma SteadyKeeps(s: Rescan, p: Progress, h: Held)
    requires OnCourse(s, p) && !p.Over() && s.Holds(h) && p.st.order[|p.frontiers|] in h.names
    requires OnCourse(s, Stepped(s, p, h)) && Before(p, Stepped(s, p, h)) && SteadyAt(s, Stepped(s, p, h), |p.frontiers|)
    ensures Keeps(s, p, h)
  {
    DepthAtMost(s, p);
    NextIs(s, p, h);
    hide OnCourse, Keeps, Stepped, Steady, Rescan.Holds, Sane;
    if p.st.DepthOf(p.st.order[|p.frontiers|]) == s.q.depth {
      KeepsAtDepth(s, p, h);
    } else {
      KeepsWhenSteady(s, p, h);
    }
  }

  lemma NextIs(s: Rescan, p: Progress, h: Held)
    requires Sane(s, p) && !p.Over() && s.Holds(h) && p.st.order[|p.frontiers|] in h.names
    requires Before(p, Stepped(s, p, h)) && Sane(s, Stepped(s, p, h))
    ensures var next, head := Stepped(s, p, h), |p.frontiers|;
            && |next.frontiers| == head + 1 <= |next.st.order| && next.frontiers[head] == h
            && next.st.order[head] == p.st.order[head] && next.st.order[..head + 1] == p.st.order[..head + 1]
            && next.st.DepthOf(p.st.order[head]) == p.st.DepthOf(p.st.order[head])
  {
    hide GraphOf, Expand, NoRepeats, Rescan.Holds;
    var next, head := Stepped(s, p, h), |p.frontiers|;
    assert p.st.order[head] in p.st.order;
    assert next.st.order[..head + 1] == p.st.order[..head + 1];
  }

  lemma UnmovedKeeps(s: Rescan, p: Progress, h: Held)
    requires OnCourse(s, p) && !p.Over() && s.Holds(h) && p.st.order[|p.frontiers|] in h.names
    requires OnCourse(s, Stepped(s, p, h)) && Before(p, Stepped(s, p, h)) && UnmovedAt(s, Stepped(s, p, h), |p.frontiers|)
    requires !ByIndex(s, p).stopped
    ensures Keeps(s, p, h)
  {
    DepthAtMost(s, p);
    NextIs(s, p, h);
    hide OnCourse, Keeps, Stepped, Steady, Rescan.Holds, Sane, ByIndex, Unmoved;
    if p.st.DepthOf(p.st.order[|p.frontiers|]) == s.q.depth {
      KeepsAtDepth(s, p, h);
    } else if Target in s.q.Columns() {
      KeepsWhenUnmoved(s, p, h);
    } else {
      KeepsWhenSteady(s, p, h);
    }
  }

  /** A course on which nothing moves goes along with the index. */
  lemma {:induction false} CourseJoins(s: Rescan, count: nat)
    requires Starts(s) && Course(s).Some? && Undisturbed(s, Course(s).value)
    requires Steps(s, Outset(s), count).Some? && Before(Steps(s, Outset(s), count).value, Course(s).value)
    ensures Joins(s, Steps(s, Outset(s), count).value)
  {
    hide *;
    if count == 0 {
      OutsetJoins(s);
      StepsNone(s);
    } else {
      StepsOneMore(s, count);
      StepsGrow(s, count - 1, 1);
      StepsOnCourse(s, count - 1);
      StepsOnCourse(s, count);
      var p, next := Steps(s, Outset(s), count - 1).value, Steps(s, Outset(s), count).value;
      BeforeAgain(p, next, Course(s).value);
      CourseJoins(s, count - 1);
      StepCourseJoins(s, p, Course(s).value);
    }
  }

  lemma StepsNone(s: Rescan)
    requires Starts(s)
    ensures Steps(s, Outset(s), 0) == Some(Outset(s))
  {
  }

  lemma StepsOneMore(s: Rescan, count: nat)
    requires Starts(s) && count > 0 && Steps(s, Outset(s), count).Some?
    ensures Steps(s, Outset(s), count - 1).Some?
            && Step(s, Steps(s, Outset(s), count - 1).value) == Steps(s, Outset(s), count)
  {
    hide Step, Starts, Outset;
  }

  lemma StepCourseJoins(s: Rescan, p: Progress, last: Progress)
    requires OnCourse(s, p) && Joins(s, p) && Sane(s, p) && Step(s, p).Some? && OnCourse(s, Step(s, p).value)
    requires Before(p, Step(s, p).value) && Before(Step(s, p).value, last) && Undisturbed(s, last)
    ensures Joins(s, Step(s, p).value)
  {
    StepIs(s, p);
    if !p.Over() {
      var h, next := NextHeld(s, p).value, Step(s, p).value;
      NextListed(s, p);
      SaneAlong(s, next);
      NextIs(s, p, h);
      IndexGoesOn(s, p);
      UndisturbedAt(s, last, |p.frontiers|);
      BeforeAlike(s, next, last, |p.frontiers|);
      hide *;
      if SteadyAt(s, last, |p.frontiers|) {
        SteadyKeeps(s, p, h);
      } else {
        UnmovedKeeps(s, p, h);
      }
      StepJoins(s, p, h);
    }
  }

  lemma UndisturbedAt(s: Rescan, p: Progress, i: nat)
    requires Undisturbed(s, p)
    ensures SteadyAt(s, p, i) || (UnmovedAt(s, p, i) && !IndexStops(s))
  {
    hide SteadyAt, UnmovedAt, IndexStops;
  }

  lemma SaneAlong(s: Rescan, p: Progress)
    requires OnCourse(s, p)
    ensures Sane(s, p) && Listed(s.q, p.st) && |p.frontiers| <= |p.st.order|
  {
    hide GraphOf, Listed, Touched, CallGraphTruth.Run;
  }

  lemma StepIs(s: Rescan, p: Progress)
    requires Sane(s, p) && Step(s, p).Some?
    ensures if p.Over() then Step(s, p).value == p
            else NextHeld(s, p).Some? && Step(s, p).value == Stepped(s, p, NextHeld(s, p).value)
  {
    hide Stepped, NextHeld;
  }

  lemma CourseIsIndexed(s: Rescan)
    requires Starts(s) && Course(s).Some?
    requires Undisturbed(s, Course(s).value)
    ensures Explore(s.g, s.q) == Some(Course(s).value.st)
  {
    CourseEnds(s);
    BeforeSelf(Course(s).value);
    CourseJoins(s, s.q.maxEdges + 1);
    hide Steps, Undisturbed, GraphOf, NoRepeats, RootHeld;
  }

  /** When the edges listed in the end are those of the index, and no budget stops the index, nothing
      has moved. */
  lemma {:induction false} CourseForced(s: Rescan, count: nat)
    requires Starts(s) && Course(s).Some? && !IndexStops(s) && count <= s.q.maxEdges + 1
    requires Explore(s.g, s.q).Some? && Explore(s.g, s.q).value.edges == Course(s).value.st.edges
    ensures Steps(s, Outset(s), count).Some?
    ensures var p := Steps(s, Outset(s), count).value; Joins(s, p) && UnmovedCourse(s, p)
  {
    hide *;
    StepsUpTo(s, count);
    if count == 0 {
      OutsetJoins(s);
      StepsNone(s);
      OutsetUnmoved(s);
    } else {
      CourseForced(s, count - 1);
      StepsOneMore(s, count);
      SaneAt(s, count - 1);
      StepsOnCourse(s, count - 1);
      StepsOnCourse(s, count);
      var p, next := Steps(s, Outset(s), count - 1).value, Steps(s, Outset(s), count).value;
      StepOnCourse(s, p);
      StepForced(s, p, Course(s).value);
    }
  }

  lemma SaneAt(s: Rescan, count: nat)
    requires Starts(s) && Steps(s, Outset(s), count).Some?
    ensures Sane(s, Steps(s, Outset(s), count).value)
  {
    hide *;
  }

  lemma OutsetUnmoved(s: Rescan)
    requires Starts(s)
    ensures UnmovedCourse(s, Outset(s))
  {
    hide Unmoved;
  }

  /** The run up to some step, and what becomes of it. */
  lemma StepsUpTo(s: Rescan, count: nat)
    requires Starts(s) && Course(s).Some? && count <= s.q.maxEdges + 1
    ensures Steps(s, Outset(s), count).Some? && Before(Steps(s, Outset(s), count).value, Course(s).value)
    ensures Steps(s, Outset(s), count).value.Over() ==> Steps(s, Outset(s), count) == Course(s)
  {
    hide Steps, Starts, Before, Outset, Progress.Over;
    var more := s.q.maxEdges + 1 - count;
    assert count + more == s.q.maxEdges + 1;
    StepsGrow(s, count, more);
    if Steps(s, Outset(s), count).value.Over() {
      StepsStay(s, Outset(s), count, more);
    }
  }

  lemma StepForced(s: Rescan, p: Progress, last: Progress)
    requires OnCourse(s, p) && Joins(s, p) && UnmovedCourse(s, p) && Sane(s, p) && Step(s, p).Some?
    requires OnCourse(s, Step(s, p).value) && Before(p, Step(s, p).value) && Before(Step(s, p).value, last)
    requires Step(s, p).value.Over() ==> Step(s, p).value == last
    requires !IndexStops(s) && Explore(s.g, s.q).Some? && Explore(s.g, s.q).value.edges == last.st.edges
    ensures Joins(s, Step(s, p).value) && UnmovedCourse(s, Step(s, p).value)
  {
    hide *;
    StepIs(s, p);
    if !p.Over() {
      var h, next, head := NextHeld(s, p).value, Step(s, p).value, |p.frontiers|;
      NextListed(s, p);
      SaneAlong(s, p);
      SaneAlong(s, next);
      NextIs(s, p, h);
      IndexGoesOn(s, p);
      DepthAtMost(s, p);
      BeforeLists(next, last);
      AsksBelow(s, p, next);
      if Asks(s, next, head) {
        UnmovedWhenListed(s, p, h, last.st.edges);
      }
      UnmovedNext(s, p, next, h);
      UnmovedKeeps(s, p, h);
      StepJoins(s, p, h);
    }
  }

  lemma BeforeLists(p: Progress, later: Progress)
    requires Before(p, later)
    ensures p.st.edges <= later.st.edges && (p.st.stopped ==> p.Over())
  {
  }

  lemma AsksBelow(s: Rescan, p: Progress, next: Progress)
    requires |p.frontiers| < |next.frontiers| <= |next.st.order| && |p.frontiers| < |p.st.order|
    requires next.st.order[|p.frontiers|] == p.st.order[|p.frontiers|]
    requires next.st.DepthOf(p.st.order[|p.frontiers|]) == p.st.DepthOf(p.st.order[|p.frontiers|])
    ensures Asks(s, next, |p.frontiers|) <==>
            p.st.DepthOf(p.st.order[|p.frontiers|]) < s.q.depth && Target in s.q.Columns()
  {
    hide Query.Columns;
  }

  lemma UnmovedNext(s: Rescan, p: Progress, next: Progress, h: Held)
    requires Before(p, next) && Listed(s.q, p.st) && UnmovedCourse(s, p)
    requires |next.frontiers| == |p.frontiers| + 1 && |p.frontiers| < |p.st.order|
    requires next.frontiers[|p.frontiers|] == h && next.st.order[..|p.frontiers| + 1] == p.st.order[..|p.frontiers| + 1]
    requires |p.frontiers| < |next.st.order| && next.st.order[|p.frontiers|] == p.st.order[|p.frontiers|]
    requires Asks(s, next, |p.frontiers|) ==> Unmoved(s, h, p.st.order[..|p.frontiers| + 1], p.st.order[|p.frontiers|])
    ensures UnmovedCourse(s, next) && UnmovedAt(s, next, |p.frontiers|)
  {
    hide Unmoved, Listed, Before, Asks;
    forall i: nat ensures UnmovedAt(s, next, i) {
      if i < |p.frontiers| {
        BeforeAlike(s, p, next, i);
        assert UnmovedAt(s, p, i);
      } else if i > |p.frontiers| {
        NotAsked(s, next, i);
      }
    }
  }

  lemma NotAsked(s: Rescan, p: Progress, i: nat)
    requires i >= |p.frontiers|
    ensures !Asks(s, p, i)
  {
  }

  /** The query gets as far as a traversal, and the source does not give up on it. */
  ghost predicate Runs(s: Rescan) {
    Known(s.g, s.q.root) && Starts(s) && Course(s).Some?
  }

  lemma RunsMeans(s: Rescan)
    requires Runs(s)
    ensures Starts(s) && Course(s).Some? && Course(s) == Steps(s, Outset(s), s.q.maxEdges + 1)
    ensures GraphOf(s.g, s.program) && RootHeld(s).Some? && Start(s.g, s.q).Some?
    ensures var p := Course(s).value; Sane(s, p) && Listed(s.q, p.st) && |p.frontiers| <= |p.st.order|
  {
    RunStarts(s);
    hide *;
    CourseIs(s);
    StartsMeans(s);
    SaneCounts(s, Course(s).value);
  }

  lemma RunStarts(s: Rescan)
    requires Runs(s)
    ensures Starts(s) && Course(s).Some?
  {
    hide Known, Starts, Course;
  }

  lemma StartsMeans(s: Rescan)
    requires Starts(s)
    ensures GraphOf(s.g, s.program) && RootHeld(s).Some? && Start(s.g, s.q).Some?
  {
    hide GraphOf, RootHeld, Start;
  }

  lemma AnswersOfRuns(s: Rescan)
    requires GraphOf(s.g, s.program) && Rescanned(s).Some?
    ensures !Runs(s) ==> Rescanned(s) == Some(Ask(s.g, s.q))
    ensures Runs(s) ==> Explore(s.g, s.q).Some?
    ensures Runs(s) && Explore(s.g, s.q) == Some(Course(s).value.st) ==> Rescanned(s) == Some(Ask(s.g, s.q))
    ensures Runs(s) && Rescanned(s) == Some(Ask(s.g, s.q)) ==> Explore(s.g, s.q).value.edges == Course(s).value.st.edges
  {
    hide GraphOf, Course, Report, Known, Explored, Start, Explore, Rescan.AffordsSites;
    StartedOrNot(s.g, s.q);
    if Runs(s) {
      var end, last := Explore(s.g, s.q).value, Course(s).value.st;
      ExploreIsExplored(s.g, s.q);
      CourseIsExplored(s);
      ExploredListed(s.g, s.q, end);
      ExploredListed(s.g, s.q, last);
      if Report(s.g, s.q, end) == Report(s.g, s.q, last) {
        ReportTellsEdges(s.g, s.q, s.program, end, last);
      }
    }
  }

  lemma ReportTellsEdges(g: Graph, q: Query, program: seq<Dex>, a: State, b: State)
    requires GraphOf(g, program) && Reportable(g, a) && Reportable(g, b)
    requires Report(g, q, a) == Report(g, q, b)
    ensures a.edges == b.edges
  {
    hide DiagnoseAll, AllDynamics, Sites, AllDeclared;
    var first, second := RowsOf(g, a.edges), RowsOf(g, b.edges);
    assert first == second;
    forall i | 0 <= i < |a.edges| ensures a.edges[i] == b.edges[i] {
      assert first[i].site == g.sites[a.edges[i]] && second[i].site == g.sites[b.edges[i]];
    }
  }

  /** Under any budgets: when no callers of the methods taken below the depth change places, the answer
      is the one over the index. */
  lemma SteadyIsAsked(s: Rescan)
    requires GraphOf(s.g, s.program) && Rescanned(s).Some?
    requires Runs(s) ==> SteadyCourse(s, Course(s).value)
    ensures Rescanned(s) == Some(Ask(s.g, s.q))
  {
    AnswersOfRuns(s);
    hide Rescanned, Ask, Course, SteadyCourse, Starts, Known, GraphOf;
    if Runs(s) {
      CourseIsIndexed(s);
    }
  }

  /** A query that follows calls forth alone is always answered as over the index. */
  lemma OutgoingIsAsked(s: Rescan)
    requires GraphOf(s.g, s.program) && Rescanned(s).Some? && s.q.direction == Outgoing
    ensures Rescanned(s) == Some(Ask(s.g, s.q))
  {
    hide Rescanned, Ask, Course, Starts, Known, GraphOf, Steady;
    SteadyIsAsked(s);
  }

  /** Each frontier was made for the method taken with it. */
  ghost predicate Fitting(s: Rescan, p: Progress) {
    forall i :: 0 <= i < |p.frontiers| && i < |p.st.order| ==> s.Holds(p.frontiers[i]) && p.st.order[i] in p.frontiers[i].names
  }

  lemma {:induction false} StepsFit(s: Rescan, count: nat)
    requires Starts(s) && Steps(s, Outset(s), count).Some?
    ensures Fitting(s, Steps(s, Outset(s), count).value)
  {
    hide Step, Starts, Sane, Fitting;
    if count == 0 {
      OutsetFits(s);
    } else {
      StepsFit(s, count - 1);
      StepsOnCourse(s, count - 1);
      StepOnCourse(s, Steps(s, Outset(s), count - 1).value);
      StepFits(s, Steps(s, Outset(s), count - 1).value);
    }
  }

  lemma OutsetFits(s: Rescan)
    requires Starts(s)
    ensures Fitting(s, Outset(s))
  {
  }

  lemma StepFits(s: Rescan, p: Progress)
    requires Sane(s, p) && Step(s, p).Some? && Fitting(s, p) && Before(p, Step(s, p).value)
    ensures Fitting(s, Step(s, p).value)
  {
    hide *;
    StepIs(s, p);
    if !p.Over() {
      NextListed(s, p);
      SaneNext(s, p);
      SteppedFits(s, p, NextHeld(s, p).value);
    }
  }

  lemma SaneNext(s: Rescan, p: Progress)
    requires Sane(s, p) && Step(s, p).Some?
    ensures Sane(s, Step(s, p).value)
  {
    hide *;
  }

  lemma SteppedFits(s: Rescan, p: Progress, h: Held)
    requires Sane(s, p) && !p.Over() && s.Holds(h) && p.st.order[|p.frontiers|] in h.names
    requires Fitting(s, p) && Before(p, Stepped(s, p, h)) && Sane(s, Stepped(s, p, h))
    ensures Fitting(s, Stepped(s, p, h))
  {
    NextIs(s, p, h);
    BeforeParts(p, Stepped(s, p, h));
    hide *;
    FitsMore(s, p, Stepped(s, p, h), h);
  }

  lemma BeforeParts(p: Progress, later: Progress)
    requires Before(p, later)
    ensures p.frontiers <= later.frontiers && p.st.order <= later.st.order
  {
  }

  lemma FitsMore(s: Rescan, p: Progress, next: Progress, h: Held)
    requires Fitting(s, p) && p.frontiers <= next.frontiers && p.st.order <= next.st.order
    requires |next.frontiers| == |p.frontiers| + 1 <= |p.st.order| && next.frontiers[|p.frontiers|] == h
    requires s.Holds(h) && p.st.order[|p.frontiers|] in h.names
    ensures Fitting(s, next)
  {
    hide Rescan.Holds;
  }

  lemma UntangledIsSteady(s: Rescan, p: Progress)
    requires Untangled(s.program) && Fitting(s, p)
    ensures SteadyCourse(s, p)
  {
    hide Steady, Untangled;
    forall i: nat ensures SteadyAt(s, p, i) {
      if Asks(s, p, i) {
        UntangledIsCalm(s.program, p.frontiers[i].names, p.frontiers[i].columns);
      }
    }
  }

  /** So is every query over an input without alternation. */
  lemma UntangledIsAsked(s: Rescan)
    requires GraphOf(s.g, s.program) && Rescanned(s).Some? && Untangled(s.program)
    ensures Rescanned(s) == Some(Ask(s.g, s.q))
  {
    hide *;
    if Runs(s) {
      RunsMeans(s);
      StepsFit(s, s.q.maxEdges + 1);
      UntangledIsSteady(s, Course(s).value);
    }
    SteadyIsAsked(s);
  }

  lemma UnmovedIsUndisturbed(s: Rescan, p: Progress)
    requires UnmovedCourse(s, p) && !IndexStops(s)
    ensures Undisturbed(s, p)
  {
  }

  /** The main result: when no budget stops the traversal over the index, the two answers are equal if
      and only if for no method taken below the depth two callers that may still show, in one class,
      change places in the scan for its frontier. */
  lemma AgreesExactly(s: Rescan)
    requires GraphOf(s.g, s.program) && Rescanned(s).Some? && !IndexStops(s)
    ensures Rescanned(s) == Some(Ask(s.g, s.q)) <==> (Runs(s) ==> UnmovedCourse(s, Course(s).value))
  {
    hide *;
    AnswersOfRuns(s);
    if Runs(s) {
      RunsMeans(s);
      if UnmovedCourse(s, Course(s).value) {
        UnmovedIsUndisturbed(s, Course(s).value);
        CourseIsIndexed(s);
      }
      if Rescanned(s) == Some(Ask(s.g, s.q)) {
        CourseForced(s, s.q.maxEdges + 1);
      }
    }
  }

  // ---------------------------------------------------------------------------------------
  // Step by step
  // ---------------------------------------------------------------------------------------

  lemma StepTaken(s: Rescan, p: Progress, h: Held)
    requires Starts(s) && Sane(s, p) && !p.Over() && NextHeld(s, p) == Some(h)
    requires Steps(s, Outset(s), |p.frontiers|) == Some(p)
    ensures Sane(s, Stepped(s, p, h)) && Steps(s, Outset(s), |p.frontiers| + 1) == Some(Stepped(s, p, h))
  {
    hide Starts, Sane, NextHeld, Stepped, Progress.Over;
    StepIsSane(s, p, h);
  }

  lemma CourseReached(s: Rescan, count: nat)
    requires Starts(s) && Steps(s, Outset(s), count).Some? && Steps(s, Outset(s), count).value.Over()
    requires |Steps(s, Outset(s), count).value.frontiers| == count
    ensures Course(s) == Steps(s, Outset(s), count)
  {
    hide *;
    SaneAt(s, count);
    FewFrontiers(s, Steps(s, Outset(s), count).value);
    CourseIs(s);
    StepsStay(s, Outset(s), count, s.q.maxEdges + 1 - count);
    assert count + (s.q.maxEdges + 1 - count) == s.q.maxEdges + 1;
  }

  lemma NoCourse(s: Rescan, p: Progress)
    requires Starts(s) && Sane(s, p) && !p.Over() && NextHeld(s, p) == None
    requires Steps(s, Outset(s), |p.frontiers|) == Some(p)
    ensures Course(s) == None
  {
    hide *;
    FewFrontiers(s, p);
    StepFails(s, p);
    StepsOneMoreFails(s, |p.frontiers|);
    CourseIs(s);
    StepsFail(s, |p.frontiers| + 1, s.q.maxEdges - |p.frontiers|);
    assert |p.frontiers| + 1 + (s.q.maxEdges - |p.frontiers|) == s.q.maxEdges + 1;
  }

  lemma FewFrontiers(s: Rescan, p: Progress)
    requires Sane(s, p)
    ensures |p.frontiers| <= s.q.maxEdges + 1 && (!p.Over() ==> |p.frontiers| <= s.q.maxEdges)
  {
    hide GraphOf, Rescan.Holds, NoRepeats;
  }

  lemma StepsOneMoreFails(s: Rescan, count: nat)
    requires Starts(s) && Steps(s, Outset(s), count).Some? && Step(s, Steps(s, Outset(s), count).value) == None
    ensures Steps(s, Outset(s), count + 1) == None
  {
    hide Starts, Step, Outset;
  }

  lemma StepFails(s: Rescan, p: Progress)
    requires Sane(s, p) && !p.Over() && NextHeld(s, p) == None
    ensures Step(s, p) == None
  {
    hide Sane, NextHeld, Progress.Over;
  }

  lemma {:induction false} StepsFail(s: Rescan, count: nat, more: nat)
    requires Starts(s) && Steps(s, Outset(s), count) == None
    ensures Steps(s, Outset(s), count + more) == None
  {
    hide Starts, Step, Outset;
    if more > 0 {
      StepsFail(s, count, more - 1);
    }
  }

  /** The answer of a run that has come to its end. */
  lemma CourseReports(s: Rescan, p: Progress)
    requires Starts(s) && Known(s.g, s.q.root) && Course(s) == Some(p)
    ensures Explored(s.g, s.q, p.st) && Reportable(s.g, p.st)
    ensures Rescanned(s) == if s.AffordsSites(p.held, Elements(p.st.order)) then Some(Report(s.g, s.q, p.st)) else None
  {
    CourseIsExplored(s);
    ExploredListed(s.g, s.q, p.st);
    StartsMeans(s);
    hide Starts, Course, Known, Explored, Report, Reportable, Rescan.AffordsSites, RootHeld, Start, GraphOf;
  }

  lemma NoCourseNoAnswer(s: Rescan)
    requires Starts(s) && Known(s.g, s.q.root) && Course(s) == None
    ensures GraphOf(s.g, s.program) && Rescanned(s) == None
  {
    StartsMeans(s);
    hide Starts, Course, Known, Report, Rescan.AffordsSites, RootHeld, Start, GraphOf;
  }

  // ---------------------------------------------------------------------------------------
  // One hop back
  // ---------------------------------------------------------------------------------------

  /** The frontier of the root holds the root alone, scanned for callers. */
  lemma RootAlone(s: Rescan)
    requires RootHeld(s).Some? && s.q.direction == Incoming
    ensures RootHeld(s) == Some(Held({s.q.root}, {Target}, {}))
  {
    hide Rescan.Affords;
    FirstAlone(s.q.root);
    assert s.Asked(true) == {Target};
  }

  lemma FirstFrontier(s: Rescan)
    requires Runs(s)
    ensures var p := Course(s).value;
            && p.frontiers != [] && p.frontiers[0] == RootHeld(s).value && p.st.order != [] && p.st.order[0] == s.q.root
            && s.q.root in p.st.nodes && p.st.DepthOf(s.q.root) == 0
  {
    RunsMeans(s);
    hide *;
    var p := Outset(s);
    StepsUpTo(s, 0);
    StepsUpTo(s, 1);
    StepsNone(s);
    StepsOneMore(s, 1);
    StepIs(s, p);
    OutsetIs(s);
    FirstStepped(s, p, Steps(s, p, 1).value, Course(s).value);
  }

  lemma FirstStepped(s: Rescan, p: Progress, next: Progress, last: Progress)
    requires Sane(s, p) && !p.Over() && s.Holds(p.held) && p.st.order[|p.frontiers|] in p.held.names
    requires p.frontiers == [] && p.st.order == [s.q.root] && s.q.root in p.st.nodes && p.st.DepthOf(s.q.root) == 0
    requires next == Stepped(s, p, p.held) && Before(p, last) && Before(next, last)
    ensures last.frontiers != [] && last.frontiers[0] == p.held && last.st.order != [] && last.st.order[0] == s.q.root
    ensures s.q.root in last.st.nodes && last.st.DepthOf(s.q.root) == 0
  {
    hide Expand, GraphOf, NoRepeats, Rescan.Holds, Rescan.Handed;
    assert next.frontiers[0] == p.held;
  }

  lemma OutsetIs(s: Rescan)
    requires Starts(s)
    ensures var p := Outset(s);
            && p.st.order == [s.q.root] && s.q.root in p.st.nodes && p.st.DepthOf(s.q.root) == 0 && p.frontiers == []
            && !p.Over() && p.held == RootHeld(s).value && NextHeld(s, p) == RootHeld(s)
            && s.Holds(p.held) && s.q.root in p.held.names
  {
    hide GraphOf, Rescan.Halved;
  }

  /** Only the root is no hop away. */
  lemma OnlyRootAtOnce(s: Rescan, i: nat)
    requires Runs(s) && 0 < i < |Course(s).value.st.order|
    ensures Course(s).value.st.DepthOf(Course(s).value.st.order[i]) > 0
  {
    hide *;
    FirstFrontier(s);
    RunsMeans(s);
    StepsOnCourse(s, s.q.maxEdges + 1);
    CourseRuns(s, Course(s).value);
    OnlyRoot(s.g, s.q, Course(s).value.st, |Course(s).value.frontiers|, i);
  }

  lemma CourseRuns(s: Rescan, p: Progress)
    requires OnCourse(s, p)
    ensures CallGraphTruth.Run(s.g, s.q, p.st, |p.frontiers|)
  {
    hide Sane, CallGraphTruth.Run, Touched;
  }

  lemma OnlyRoot(g: Graph, q: Query, st: State, head: nat, i: nat)
    requires CallGraphTruth.Run(g, q, st, head) && 0 < i < |st.order| && st.order[0] == q.root
    ensures st.DepthOf(st.order[i]) > 0
  {
    hide StatusesRight, ReasonsRight, BoundariesAtDepth, Layered, AllAnchored, Closed;
    assert st.order[i] in st.nodes && st.order[i] != st.order[0];
    assert AtDistance(g, q, st.order[i], st.DepthOf(st.order[i]));
  }

  lemma LateIsCalls(s: Rescan, names: set<Method>, columns: set<Column>, taken: seq<Method>, m: Method)
    requires s.q.direction == Incoming
    ensures Shuffles(s.program, names, columns, Late(s.q, taken, m)) <==> Shuffles(s.program, names, columns, EndIs(Target, m))
  {
    assert forall site :: Late(s.q, taken, m)(site) <==> EndIs(Target, m)(site);
    hide Late, EndIs, Shuffles;
    ShufflesLess(s.program, names, columns, Late(s.q, taken, m), EndIs(Target, m));
    ShufflesLess(s.program, names, columns, EndIs(Target, m), Late(s.q, taken, m));
  }

  /** The callers of a method, one hop back: the answers agree if and only if the frontier of the method
      alone is calm. */
  lemma OneHopExactly(s: Rescan)
    requires GraphOf(s.g, s.program) && Rescanned(s).Some? && !IndexStops(s) && Runs(s)
    requires s.q.direction == Incoming && s.q.depth == 1
    ensures Rescanned(s) == Some(Ask(s.g, s.q)) <==> Calm(s.program, {s.q.root}, {Target})
  {
    hide *;
    AgreesExactly(s);
    RunsMeans(s);
    FirstFrontier(s);
    RootAlone(s);
    var p := Course(s).value;
    LateIsCalls(s, {s.q.root}, {Target}, p.st.order[..1], s.q.root);
    forall i: nat | 0 < i < |p.st.order| ensures p.st.DepthOf(p.st.order[i]) > 0 {
      OnlyRootAtOnce(s, i);
    }
    OnlyRootAsks(s, p);
  }

  lemma OnlyRootAsks(s: Rescan, p: Progress)
    requires s.q.direction == Incoming && s.q.depth == 1 && p.frontiers != [] && p.st.order != []
    requires p.st.order[0] == s.q.root && p.st.DepthOf(s.q.root) == 0 && p.frontiers[0] == Held({s.q.root}, {Target}, {})
    requires forall i :: 0 < i < |p.st.order| ==> p.st.DepthOf(p.st.order[i]) > 0
    requires Shuffles(s.program, {s.q.root}, {Target}, Late(s.q, p.st.order[..1], s.q.root)) <==>
             Shuffles(s.program, {s.q.root}, {Target}, EndIs(Target, s.q.root))
    ensures UnmovedCourse(s, p) <==> Calm(s.program, {s.q.root}, {Target})
  {
    hide Shuffles, Late, EndIs;
    forall i: nat | i > 0 ensures UnmovedAt(s, p, i) {
      assert !Asks(s, p, i);
    }
    assert UnmovedAt(s, p, 0) <==> Unmoved(s, p.frontiers[0], p.st.order[..1], s.q.root);
    assert Calm(s.program, {s.q.root}, {Target}) <==> Steady(s.program, {s.q.root}, {Target}, s.q.root);
  }
}
