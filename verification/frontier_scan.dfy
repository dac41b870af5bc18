/** What a rescan of the input for a batch of queued methods keeps, hands over and costs, and which
    batch is scanned next. */
module FrontierScans {
  import opened Bytes
  import opened Sorting
  import opened MethodOrder
  import opened MethodSelection
  import opened CallGraph
  import opened CallSites

  /** The size charged for a name, a call site and a diagnostic that are kept. */
  datatype Charges = Charges(name: Method -> nat, site: Site -> nat, diagnostic: (Method, Diagnostic) -> nat)

  const BATCH := 32

  /** Diagnostics kept per method. */
  const KEPT := 20

  function SitesOf(g: Graph, ids: seq<nat>): (r: seq<Site>)
    requires forall i :: 0 <= i < |ids| ==> ids[i] < |g.sites|
    ensures |r| == |ids|
    ensures forall i :: 0 <= i < |ids| ==> r[i] == g.sites[ids[i]]
  {
    seq(|ids|, i requires 0 <= i < |ids| => g.sites[ids[i]])
  }

  /** What is kept for one end of a method: its call sites from `id` on, at most `limit`. */
  function Kept(g: Graph, column: Column, m: Method, id: nat, limit: nat): seq<Site>
    requires id <= |g.sites|
  {
    SitesOf(g, Matching(g, column, m, id, limit))
  }

  lemma KeptStep(g: Graph, column: Column, m: Method, id: nat, limit: nat)
    requires id < |g.sites|
    ensures Kept(g, column, m, id, limit) ==
            if limit > 0 && End(g, column, id) == m then [g.sites[id]] + Kept(g, column, m, id + 1, limit - 1)
            else Kept(g, column, m, id + 1, limit)
  {
  }

  lemma KeptEnd(g: Graph, column: Column, m: Method, limit: nat)
    ensures Kept(g, column, m, |g.sites|, limit) == []
  {
  }

  function FirstRows(rows: seq<Diagnostic>, limit: nat): seq<Diagnostic> {
    if |rows| <= limit then rows else rows[..limit]
  }

  /** Only methods with code hold dynamic sites. */
  ghost predicate Coded(g: Graph) {
    forall m :: m in g.dynamics ==> m in g.definitions && !g.definitions[m].without
  }

  type Adjacency = map<(Column, Method), seq<Site>>

  function Get(adjacency: Adjacency, column: Column, m: Method): seq<Site> {
    if (column, m) in adjacency then adjacency[(column, m)] else []
  }

  /** Both methods named by every kept call site are among the names. */
  ghost predicate EndsAmong(adjacency: Adjacency, names: set<Method>) {
    forall key, i :: key in adjacency && 0 <= i < |adjacency[key]| ==>
      adjacency[key][i].caller in names && adjacency[key][i].callee in names
  }

  /** After the call sites below `id`: what is kept so far and what is to come make up the cut
      adjacency of every name, for each end that is asked. */
  ghost predicate Gathered(g: Graph, cap: nat, adjacency: Adjacency, names: set<Method>, columns: set<Column>, id: nat)
    requires id <= |g.sites|
  {
    forall column, m :: column in columns && m in names ==> GatheredAt(g, cap, adjacency, column, m, id)
  }

  ghost predicate GatheredAt(g: Graph, cap: nat, adjacency: Adjacency, column: Column, m: Method, id: nat)
    requires id <= |g.sites|
  {
    var kept := Get(adjacency, column, m);
    |kept| <= cap && Kept(g, column, m, 0, cap) == kept + Kept(g, column, m, id, cap - |kept|)
  }

  /** Keep a call site for one end, unless that end is full. */
  function Add(adjacency: Adjacency, cap: nat, column: Column, m: Method, site: Site): Adjacency {
    var kept := Get(adjacency, column, m);
    if |kept| < cap then adjacency[(column, m) := kept + [site]] else adjacency
  }

  /** One call site of the input, kept for its caller and its callee. */
  function Gather(cap: nat, adjacency: Adjacency, names: set<Method>, columns: set<Column>, site: Site): Adjacency {
    var outgoing := if Source in columns && site.caller in names then Add(adjacency, cap, Source, site.caller, site)
                    else adjacency;
    if Target in columns && site.callee in names then Add(outgoing, cap, Target, site.callee, site) else outgoing
  }

  lemma GatherGet(g: Graph, cap: nat, adjacency: Adjacency, names: set<Method>, columns: set<Column>, id: nat,
                  column: Column, m: Method)
    requires id < |g.sites| && column in columns && m in names
    ensures Get(Gather(cap, adjacency, names, columns, g.sites[id]), column, m) ==
            if End(g, column, id) == m && |Get(adjacency, column, m)| < cap
            then Get(adjacency, column, m) + [g.sites[id]] else Get(adjacency, column, m)
  {
  }

  lemma KeptMoves(kept: seq<Site>, site: Site, rest: seq<Site>)
    ensures kept + ([site] + rest) == (kept + [site]) + rest
  {
  }

  lemma GatherStep(g: Graph, cap: nat, adjacency: Adjacency, names: set<Method>, columns: set<Column>, id: nat)
    requires id < |g.sites| && Gathered(g, cap, adjacency, names, columns, id)
    ensures Gathered(g, cap, Gather(cap, adjacency, names, columns, g.sites[id]), names, columns, id + 1)
  {
    hide Gather, Get, Kept;
    var after := Gather(cap, adjacency, names, columns, g.sites[id]);
    var next := id + 1;
    forall column, m | column in columns && m in names ensures GatheredAt(g, cap, after, column, m, next) {
      assert GatheredAt(g, cap, adjacency, column, m, id);
      var kept := Get(adjacency, column, m);
      KeptStep(g, column, m, id, cap - |kept|);
      GatherGet(g, cap, adjacency, names, columns, id, column, m);
      if End(g, column, id) == m && |kept| < cap {
        KeptMoves(kept, g.sites[id], Kept(g, column, m, next, cap - |kept| - 1));
      }
    }
  }

  lemma GatherEnds(g: Graph, cap: nat, adjacency: Adjacency, names: set<Method>, columns: set<Column>, id: nat,
                   ends: set<Method>)
    requires id < |g.sites| && EndsAmong(adjacency, ends)
    ensures EndsAmong(Gather(cap, adjacency, names, columns, g.sites[id]), ends + {g.sites[id].caller, g.sites[id].callee})
    ensures Gather(cap, adjacency, names, columns, g.sites[id]) == adjacency ==>
            EndsAmong(Gather(cap, adjacency, names, columns, g.sites[id]), ends)
  {
  }

  /** What the source promises for one name once its batch has been scanned. */
  ghost predicate Ready(g: Graph, cap: nat, adjacency: Adjacency, columns: set<Column>, m: Method) {
    forall column :: column in columns ==> Get(adjacency, column, m) == Kept(g, column, m, 0, cap)
  }

  lemma GatheredIsReady(g: Graph, cap: nat, adjacency: Adjacency, names: set<Method>, columns: set<Column>)
    requires Gathered(g, cap, adjacency, names, columns, |g.sites|)
    ensures forall m :: m in names ==> Ready(g, cap, adjacency, columns, m)
  {
    hide Get, Kept;
    forall m, column | m in names && column in columns ensures Get(adjacency, column, m) == Kept(g, column, m, 0, cap) {
      assert GatheredAt(g, cap, adjacency, column, m, |g.sites|);
      KeptEnd(g, column, m, cap - |Get(adjacency, column, m)|);
    }
  }

  lemma NothingGathered(g: Graph, cap: nat, names: set<Method>, columns: set<Column>)
    ensures Gathered(g, cap, map[], names, columns, 0)
  {
  }

  // ---------------------------------------------------------------------------------------
  // The graph as a scan comes upon it
  // ---------------------------------------------------------------------------------------

  /** The graph with the call sites a frontier is scanned for, in the order of the scan. */
  function ScanGraph(g: Graph, program: seq<Dex>, names: set<Method>, columns: set<Column>): Graph {
    Graph(Scanned(program, names, columns), g.definitions, g.dynamics)
  }

  /** The graph is that of the input, and what the index demands of inputs holds: no class declares
      a method twice, and a call site is known by where it stands. */
  ghost predicate GraphOf(g: Graph, program: seq<Dex>) {
    g.sites == Sites(program) && AllDeclared(program) && Addressed(g)
  }

  function Front(sites: seq<Site>, limit: nat): seq<Site> {
    if |sites| <= limit then sites else sites[..limit]
  }

  lemma FilterRest(sites: seq<Site>, id: nat, keep: Site -> bool)
    requires id < |sites|
    ensures Filter(sites[id..], keep) == (if keep(sites[id]) then [sites[id]] else []) + Filter(sites[id + 1..], keep)
  {
    assert sites[id..][1..] == sites[id + 1..];
  }

  /** What is kept for one end of a method is the front of its call sites. */
  lemma {:induction false} KeptIsFront(g: Graph, column: Column, m: Method, id: nat, limit: nat)
    requires id <= |g.sites|
    ensures Kept(g, column, m, id, limit) == Front(Filter(g.sites[id..], EndIs(column, m)), limit)
    decreases |g.sites| - id
  {
    hide Kept, Filter, Front;
    if id == |g.sites| {
      assert g.sites[id..] == [];
      KeptEnd(g, column, m, limit);
      FrontOfNothing(EndIs(column, m), limit);
    } else {
      KeptStep(g, column, m, id, limit);
      FilterRest(g.sites, id, EndIs(column, m));
      KeptIsFront(g, column, m, id + 1, limit);
      if limit > 0 {
        KeptIsFront(g, column, m, id + 1, limit - 1);
      }
      FrontStep(g.sites[id], Filter(g.sites[id + 1..], EndIs(column, m)), limit);
    }
  }

  lemma FrontOfNothing(keep: Site -> bool, limit: nat)
    ensures Front(Filter([], keep), limit) == []
  {
  }

  lemma FrontStep(site: Site, rest: seq<Site>, limit: nat)
    ensures Front([site] + rest, limit) == if limit > 0 then [site] + Front(rest, limit - 1) else []
    ensures limit == 0 ==> Front(rest, limit) == []
    ensures Front([] + rest, limit) == Front(rest, limit)
  {
    assert [] + rest == rest;
  }

  /** The number the index gives to a call site. */
  ghost function IdOf(g: Graph, site: Site): (id: nat)
    ensures site in g.sites ==> id < |g.sites| && g.sites[id] == site
  {
    if site in g.sites then
      var id :| 0 <= id < |g.sites| && g.sites[id] == site;
      id
    else 0
  }

  ghost function IdsOf(g: Graph, sites: seq<Site>): (r: seq<nat>)
    ensures |r| == |sites| && forall i :: 0 <= i < |r| ==> r[i] == IdOf(g, sites[i])
  {
    seq(|sites|, i requires 0 <= i < |sites| => IdOf(g, sites[i]))
  }

  lemma AddressedIsDistinct(g: Graph)
    requires Addressed(g)
    ensures AllDistinct(g.sites)
    ensures forall id :: 0 <= id < |g.sites| ==> IdOf(g, g.sites[id]) == id
  {
    forall id | 0 <= id < |g.sites| ensures IdOf(g, g.sites[id]) == id {
      assert g.sites[id] in g.sites;
    }
  }

  /** What a scan keeps of one end of a method of the frontier. */
  function ScanKept(g: Graph, program: seq<Dex>, names: set<Method>, columns: set<Column>, column: Column, m: Method, cap: nat)
    : seq<Site>
  {
    Kept(ScanGraph(g, program, names, columns), column, m, 0, cap)
  }

  lemma ScanKeptIsFront(g: Graph, program: seq<Dex>, names: set<Method>, columns: set<Column>, column: Column, m: Method,
                        cap: nat)
    ensures ScanKept(g, program, names, columns, column, m, cap) ==
            Front(Filter(Scanned(program, names, columns), EndIs(column, m)), cap)
  {
    var view := ScanGraph(g, program, names, columns);
    KeptIsFront(view, column, m, 0, cap);
    assert view.sites[0..] == Scanned(program, names, columns);
  }

  lemma {:induction false} FilterDistinct(xs: seq<Site>, keep: Site -> bool)
    requires AllDistinct(xs)
    ensures AllDistinct(Filter(xs, keep))
  {
    forall u, v | 0 <= u < v < |Filter(xs, keep)| ensures Filter(xs, keep)[u] != Filter(xs, keep)[v] {
      var i, j := FilterKeepsOrder(xs, keep, u, v);
    }
  }

  /** The front of some filtered call sites. */
  lemma FrontOfFiltered(xs: seq<Site>, keep: Site -> bool, cap: nat)
    requires AllDistinct(xs)
    ensures var kept := Front(Filter(xs, keep), cap);
            && AllDistinct(kept) && |kept| <= cap
            && (forall site :: site in kept ==> site in xs && keep(site))
            && (|kept| < cap ==> forall site :: site in xs && keep(site) ==> site in kept)
  {
    FilterDistinct(xs, keep);
    var all := Filter(xs, keep);
    forall site ensures site in all <==> site in xs && keep(site) {
      FilterMember(xs, keep, site);
    }
    hide Filter;
    var kept := Front(all, cap);
    forall site | site in kept ensures site in all {
      var i :| 0 <= i < |kept| && kept[i] == site;
      assert all[i] == site;
    }
  }

  /** A scan keeps call sites with the right end, each once, and all there are unless it keeps as
      many as the cut allows. */
  lemma ScanKeptIsFair(g: Graph, program: seq<Dex>, names: set<Method>, columns: set<Column>, column: Column, m: Method,
                       cap: nat)
    requires GraphOf(g, program) && column in columns && m in names
    ensures var kept := ScanKept(g, program, names, columns, column, m, cap);
            && AllDistinct(kept) && |kept| <= cap
            && (forall site :: site in kept ==> site in g.sites && EndIs(column, m)(site))
            && (|kept| < cap ==> forall site :: site in g.sites && EndIs(column, m)(site) ==> site in kept)
  {
    var all := Scanned(program, names, columns);
    AddressedIsDistinct(g);
    ScanCovers(program, names, columns);
    DistinctPart(g.sites, all);
    ScanKeptIsFront(g, program, names, columns, column, m, cap);
    hide Scanned, Sites, Kept, Addressed, AllDeclared, Filter, AllDistinct, ScanKept, Front;
    FrontOfFiltered(all, EndIs(column, m), cap);
    forall site | site in all ensures site in g.sites {
      assert site in multiset(all) && site in multiset(g.sites);
    }
  }

  /** Distinct call sites of one end, and all there are unless there are many: so are their numbers. */
  lemma FairIds(g: Graph, q: Query, column: Column, m: Method, kept: seq<Site>)
    requires AllDistinct(kept) && column in q.Columns()
    requires forall id :: 0 <= id < |g.sites| ==> IdOf(g, g.sites[id]) == id
    requires forall site :: site in kept ==> site in g.sites && EndIs(column, m)(site)
    requires |kept| <= q.maxEdges ==> forall site :: site in g.sites && EndIs(column, m)(site) ==> site in kept
    ensures FairIn(g, q, column, m, IdsOf(g, kept))
  {
    hide Query.Columns;
    var ids := IdsOf(g, kept);
    forall i | 0 <= i < |ids| ensures ids[i] < |g.sites| && g.sites[ids[i]] == kept[i] && EndIs(column, m)(kept[i]) {
      assert kept[i] in kept;
    }
    forall id: nat | Touches(g, q, column, id, m) && |ids| <= q.maxEdges ensures id in ids {
      var site := g.sites[id];
      assert site in g.sites && EndIs(column, m)(site);
      var i :| 0 <= i < |kept| && kept[i] == site;
      assert ids[i] == id;
    }
  }

  /** What a scan keeps may stand for the adjacency. */
  lemma ScanIsFair(g: Graph, q: Query, program: seq<Dex>, names: set<Method>, columns: set<Column>, column: Column, m: Method)
    requires GraphOf(g, program) && column in columns && column in q.Columns() && m in names
    ensures FairIn(g, q, column, m, IdsOf(g, ScanKept(g, program, names, columns, column, m, q.maxEdges + 1)))
  {
    AddressedIsDistinct(g);
    ScanKeptIsFair(g, program, names, columns, column, m, q.maxEdges + 1);
    hide *;
    FairIds(g, q, column, m, ScanKept(g, program, names, columns, column, m, q.maxEdges + 1));
  }

  lemma IdsOfSites(g: Graph, ids: seq<nat>)
    requires forall id :: 0 <= id < |g.sites| ==> IdOf(g, g.sites[id]) == id
    requires forall i :: 0 <= i < |ids| ==> ids[i] < |g.sites|
    ensures IdsOf(g, SitesOf(g, ids)) == ids
  {
  }

  /** The callers of a method of a frontier keep their places in its scan. */
  ghost predicate Steady(program: seq<Dex>, names: set<Method>, columns: set<Column>, m: Method) {
    !Shuffles(program, names, columns, EndIs(Target, m))
  }

  /** So do those of every method of the frontier. */
  ghost predicate Calm(program: seq<Dex>, names: set<Method>, columns: set<Column>) {
    Target in columns ==> forall m :: m in names ==> Steady(program, names, columns, m)
  }

  /** Exactly when the scan comes upon the call sites of one end in the order of the index. */
  lemma EndOrder(program: seq<Dex>, names: set<Method>, columns: set<Column>, column: Column, m: Method)
    requires AllDeclared(program) && column in columns && m in names
    ensures var few, all := Filter(Scanned(program, names, columns), EndIs(column, m)), Filter(Sites(program), EndIs(column, m));
            |few| == |all| && (few == all <==> column == Source || Steady(program, names, columns, m))
  {
    hide Shuffles, Scanned, Sites, Filter, AllDeclared, EndIs, Among;
    EndsAreAmong(names, columns, column, m);
    ColumnOrder(program, names, columns, EndIs(column, m));
    if column == Source {
      CallsNeverShuffle(program, names, columns, m);
    }
  }

  /** Exactly when a frontier is calm: for every end and method the scan comes upon the call sites in
      the order of the index. */
  lemma CalmExactly(program: seq<Dex>, names: set<Method>, columns: set<Column>)
    requires AllDeclared(program)
    ensures Calm(program, names, columns) <==>
            forall column, m :: column in columns && m in names ==>
              Filter(Scanned(program, names, columns), EndIs(column, m)) == Filter(Sites(program), EndIs(column, m))
  {
    hide Steady, Scanned, Sites, Filter, AllDeclared, EndIs;
    forall column, m | column in columns && m in names
      ensures Filter(Scanned(program, names, columns), EndIs(column, m)) == Filter(Sites(program), EndIs(column, m)) <==>
              column == Source || Steady(program, names, columns, m)
    {
      EndOrder(program, names, columns, column, m);
    }
  }

  /** Without alternation every frontier is calm. */
  lemma UntangledIsCalm(program: seq<Dex>, names: set<Method>, columns: set<Column>)
    requires Untangled(program)
    ensures Calm(program, names, columns)
  {
    hide Untangled, Shuffles, Among;
    if Target in columns {
      forall m | m in names ensures Steady(program, names, columns, m) {
        EndsAreAmong(names, columns, Target, m);
        UntangledNeverShuffles(program, names, columns, EndIs(Target, m));
      }
    }
  }

  lemma ScanKeptIsIndexed(g: Graph, program: seq<Dex>, names: set<Method>, columns: set<Column>, column: Column, m: Method,
                          cap: nat)
    requires GraphOf(g, program) && column in columns && m in names
    requires column == Source || Steady(program, names, columns, m)
    ensures ScanKept(g, program, names, columns, column, m, cap) == Kept(g, column, m, 0, cap)
  {
    hide Steady, Scanned, Sites, Filter, AllDeclared, Addressed, ScanKept, Kept;
    EndOrder(program, names, columns, column, m);
    ScanKeptIsFront(g, program, names, columns, column, m, cap);
    KeptIsFront(g, column, m, 0, cap);
    assert g.sites[0..] == g.sites;
  }

  lemma KeptIsAdjacent(g: Graph, q: Query, column: Column, m: Method)
    ensures Kept(g, column, m, 0, q.maxEdges + 1) == SitesOf(g, Adjacent(g, q, column, m))
    ensures forall i :: 0 <= i < |Adjacent(g, q, column, m)| ==> Adjacent(g, q, column, m)[i] < |g.sites|
  {
  }

  /** What is handed over is what the index hands over when no callers change places, and always for
      the calls a method makes. */
  lemma SteadyIsIndexed(g: Graph, q: Query, program: seq<Dex>, names: set<Method>, columns: set<Column>, column: Column,
                        m: Method)
    requires GraphOf(g, program) && column in columns && m in names
    requires column == Source || Steady(program, names, columns, m)
    ensures IdsOf(g, ScanKept(g, program, names, columns, column, m, q.maxEdges + 1)) == Adjacent(g, q, column, m)
  {
    AddressedIsDistinct(g);
    ScanKeptIsIndexed(g, program, names, columns, column, m, q.maxEdges + 1);
    KeptIsAdjacent(g, q, column, m);
    hide *;
    IdsOfSites(g, Adjacent(g, q, column, m));
  }

  // ---------------------------------------------------------------------------------------
  // What a batch costs
  // ---------------------------------------------------------------------------------------

  ghost function Sum(cost: Method -> nat, names: set<Method>): nat {
    if names == {} then 0
    else
      var m :| m in names;
      cost(m) + Sum(cost, names - {m})
  }

  lemma {:induction false} SumRemoves(cost: Method -> nat, names: set<Method>, m: Method)
    requires m in names
    ensures Sum(cost, names) == cost(m) + Sum(cost, names - {m})
    decreases |names|
  {
    var first :| first in names && Sum(cost, names) == cost(first) + Sum(cost, names - {first});
    if first != m {
      SumRemoves(cost, names - {first}, m);
      SumRemoves(cost, names - {m}, first);
      assert names - {first} - {m} == names - {m} - {first};
    }
  }

  lemma SumOfNothing(cost: Method -> nat)
    ensures Sum(cost, {}) == 0
  {
  }

  /** What the names without a place would cost. */
  ghost function Due(cost: Method -> nat, names: set<Method>, keys: set<Method>): nat {
    Sum(cost, names - keys)
  }

  lemma DueStep(cost: Method -> nat, left: set<Method>, keys: set<Method>, m: Method)
    requires m in left
    ensures m in keys ==> Due(cost, left, keys) == Due(cost, left - {m}, keys)
    ensures m !in keys ==> Due(cost, left, keys) == cost(m) + Due(cost, left - {m}, keys + {m})
  {
    hide Sum;
    if m in keys {
      assert left - keys == left - {m} - keys;
    } else {
      SumRemoves(cost, left - keys, m);
      assert left - keys - {m} == left - {m} - (keys + {m});
    }
  }

  lemma DueNothing(cost: Method -> nat, keys: set<Method>)
    ensures Due(cost, {}, keys) == 0
  {
    assert {} - keys == {};
  }

  /** The call sites from `id` on that are kept for some end, each charged once. */
  function ScanCost(g: Graph, charges: Charges, cap: nat, adjacency: Adjacency, names: set<Method>, columns: set<Column>,
                    id: nat): nat
    requires id <= |g.sites|
    decreases |g.sites| - id
  {
    if id == |g.sites| then 0
    else
      var kept := Gather(cap, adjacency, names, columns, g.sites[id]);
      (if kept == adjacency then 0 else charges.site(g.sites[id])) + ScanCost(g, charges, cap, kept, names, columns, id + 1)
  }

  /** The methods at the ends of what is kept, and those already given. */
  function ScanEnds(g: Graph, cap: nat, adjacency: Adjacency, names: set<Method>, columns: set<Column>, id: nat,
                    ends: set<Method>): set<Method>
    requires id <= |g.sites|
    decreases |g.sites| - id
  {
    if id == |g.sites| then ends
    else
      var kept := Gather(cap, adjacency, names, columns, g.sites[id]);
      ScanEnds(g, cap, kept, names, columns, id + 1,
               if kept == adjacency then ends else ends + {g.sites[id].caller, g.sites[id].callee})
  }

  lemma NothingHasEnds(names: set<Method>)
    ensures EndsAmong(map[], names)
  {
  }

  lemma {:induction false} FewNames(s: seq<Method>, n: nat)
    requires n <= |s|
    ensures |set i | 0 <= i < n :: s[i]| <= n
  {
    if n > 0 {
      FewNames(s, n - 1);
      assert (set i | 0 <= i < n :: s[i]) == (set i | 0 <= i < n - 1 :: s[i]) + {s[n - 1]};
    }
  }

  /** What some diagnostics of a method cost. */
  function RowsCost(charges: Charges, m: Method, rows: seq<Diagnostic>): nat {
    if rows == [] then 0 else RowsCost(charges, m, rows[..|rows| - 1]) + charges.diagnostic(m, rows[|rows| - 1])
  }

  lemma FirstRowsStep(charges: Charges, m: Method, rows: seq<Diagnostic>, count: nat)
    requires count < |rows|
    ensures var before, after := FirstRows(rows[..count], KEPT), FirstRows(rows[..count + 1], KEPT);
            && |before| <= KEPT
            && (if |before| < KEPT then after == before + [rows[count]]
                                        && RowsCost(charges, m, after) ==
                                           RowsCost(charges, m, before) + charges.diagnostic(m, rows[count])
                else after == before)
  {
    var before := FirstRows(rows[..count], KEPT);
    if |before| < KEPT {
      assert before == rows[..count] && (before + [rows[count]])[..|before|] == before;
      assert rows[..count + 1] == before + [rows[count]];
    }
  }

  lemma {:induction false} FirstRowsCost(charges: Charges, m: Method, rows: seq<Diagnostic>, count: nat)
    requires count <= |rows|
    ensures RowsCost(charges, m, FirstRows(rows[..count], KEPT)) <= RowsCost(charges, m, FirstRows(rows, KEPT))
    decreases |rows| - count
  {
    if count < |rows| {
      FirstRowsStep(charges, m, rows, count);
      FirstRowsCost(charges, m, rows, count + 1);
    } else {
      assert rows[..count] == rows;
    }
  }

  /** None of the methods has dynamic sites. */
  ghost predicate Undynamic(g: Graph, names: set<Method>) {
    forall m :: m in names ==> g.Dynamics(m) == []
  }

  lemma FairIsInside(g: Graph, q: Query, column: Column, m: Method, ids: seq<nat>)
    ensures ids == [] || FairIn(g, q, column, m, ids) ==> forall i :: 0 <= i < |ids| ==> ids[i] < |g.sites|
  {
    if FairIn(g, q, column, m, ids) {
      forall i | 0 <= i < |ids| ensures ids[i] < |g.sites| {
        assert Touches(g, q, column, ids[i], m);
      }
    }
  }

  // ---------------------------------------------------------------------------------------
  // The source as a setting
  // ---------------------------------------------------------------------------------------

  /** A frontier at hand: its methods, the ends it was scanned for, and what was visited then. */
  datatype Held = Held(names: set<Method>, columns: set<Column>, before: set<Method>)

  /** The first identities of a batch. */
  ghost function Firsts(identities: seq<Method>, size: nat): set<Method>
    requires size <= |identities|
  {
    set i | 0 <= i < size :: identities[i]
  }

  lemma FirstAlone(m: Method)
    ensures Firsts([m], 1) == {m}
  {
    var one := [m];
    assert one[0] in Firsts(one, 1);
  }

  /** The input as it is rescanned for a query, under a budget. */
  datatype Rescan = Rescan(g: Graph, program: seq<Dex>, q: Query, charges: Charges, budget: nat)
  {
    function Cap(): nat {
      q.maxEdges + 1
    }

    /** The graph as the names are scanned for. */
    function View(names: set<Method>, columns: set<Column>): Graph {
      ScanGraph(g, program, names, columns)
    }

    /** The ends a batch is scanned for; the first also finds whether anything calls the root. */
    function Asked(first: bool): set<Column> {
      (if q.direction == Incoming then {} else {Source}) + (if first || q.direction != Outgoing then {Target} else {})
    }

    /** Everything charged for one batch: the visited names, the call sites kept, the new names. */
    ghost function BatchCost(visited: set<Method>, names: set<Method>, columns: set<Column>): nat {
      var view := View(names, columns);
      Sum(charges.name, visited) + ScanCost(view, charges, Cap(), map[], names, columns, 0)
      + Sum(charges.name, ScanEnds(view, Cap(), map[], names, columns, 0, names) - visited)
    }

    /** Every name has been visited and no call site is kept: then nothing is charged. The visited
        names are counted, but only a charge is held against the budget. */
    ghost predicate Silent(visited: set<Method>, names: set<Method>, columns: set<Column>) {
      names <= visited && forall site :: site in View(names, columns).sites ==> !Relevant(site, names, columns)
    }

    ghost predicate Affords(visited: set<Method>, names: set<Method>, columns: set<Column>) {
      BatchCost(visited, names, columns) <= budget || Silent(visited, names, columns)
    }

    /** The first batch that fits, of so many identities, half of them, and so on down to one. */
    ghost function Halved(visited: set<Method>, identities: seq<Method>, columns: set<Column>, size: nat): Option<Held>
      requires 1 <= size <= |identities|
      decreases size
    {
      var names := Firsts(identities, size);
      if Affords(visited, names, columns) then Some(Held(names, columns, visited))
      else if size == 1 then None
      else Halved(visited, identities, columns, size / 2)
    }

    /** The frontier at hand once the first identity has been asked for: the present one if it is in
        it, or else a new one; none when the source gives up. */
    ghost function Prepared(held: Option<Held>, visited: set<Method>, identities: seq<Method>, first: bool): Option<Held>
      requires identities != []
    {
      if held.Some? && identities[0] in held.value.names then held
      else Halved(visited, identities, Asked(first), if |identities| <= BATCH then |identities| else BATCH)
    }

    /** A frontier as the source makes them. */
    ghost predicate Holds(h: Held) {
      |h.names| <= BATCH && Asked(false) <= h.columns
    }

    /** What the source hands over for a method of the frontier at hand. */
    ghost function Handed(h: Held, m: Method): (r: Shown)
      requires GraphOf(g, program) && Holds(h) && m in h.names
      ensures Fair(g, q, m, r)
    {
      HandedIsFair(h, m);
      HandedFor(h, m)
    }

    ghost function HandedFor(h: Held, m: Method): Shown {
      Shown(if Source in Asked(false) then IdsOf(g, ScanKept(g, program, h.names, h.columns, Source, m, Cap())) else [],
            if Target in Asked(false) then IdsOf(g, ScanKept(g, program, h.names, h.columns, Target, m, Cap())) else [])
    }

    /** What is handed over may stand for the adjacency. */
    lemma HandedIsFair(h: Held, m: Method)
      requires GraphOf(g, program) && Holds(h) && m in h.names
      ensures Fair(g, q, m, HandedFor(h, m))
    {
      hide FairIn, ScanKept, GraphOf;
      var shown := HandedFor(h, m);
      forall column | column in q.Columns() ensures FairIn(g, q, column, m, shown.In(column)) {
        ScanIsFair(g, q, program, h.names, h.columns, column, m);
      }
      assert shown.source == [] || FairIn(g, q, Source, m, shown.In(Source));
      assert shown.target == [] || FairIn(g, q, Target, m, shown.In(Target));
      FairIsInside(g, q, Source, m, shown.source);
      FairIsInside(g, q, Target, m, shown.target);
    }

    /** For each end: the index's, always for the calls a method makes, and for the calls to it when
        no callers change places. */
    lemma HandedIsIndexed(h: Held, m: Method, column: Column)
      requires GraphOf(g, program) && Holds(h) && m in h.names && column in q.Columns()
      requires column == Source || Steady(program, h.names, h.columns, m)
      ensures Handed(h, m).In(column) == Adjacent(g, q, column, m)
    {
      hide Steady, ScanKept, GraphOf, Adjacent;
      SteadyIsIndexed(g, q, program, h.names, h.columns, column, m);
    }

    /** What keeping the dynamic sites of a method costs. */
    ghost function DiagnosticCost(): Method -> nat {
      (m: Method) => RowsCost(charges, m, FirstRows(g.Dynamics(m), KEPT))
    }

    ghost function DiagnosticsCost(listed: set<Method>): nat {
      Sum(DiagnosticCost(), listed * g.definitions.Keys)
    }

    /** The dynamic sites of the listed methods fit beside the frontier at hand, or there are none. */
    ghost predicate AffordsSites(h: Held, listed: set<Method>) {
      || BatchCost(h.before, h.names, h.columns) + DiagnosticsCost(listed) <= budget
      || Undynamic(g, listed)
    }

    lemma {:induction false} HalvedMeans(visited: set<Method>, identities: seq<Method>, columns: set<Column>, size: nat)
      requires 1 <= size <= |identities| && size <= BATCH
      ensures match Halved(visited, identities, columns, size)
              case None => !Affords(visited, {identities[0]}, columns)
              case Some(h) =>
                && identities[0] in h.names && |h.names| <= BATCH && h.columns == columns && h.before == visited
                && Affords(visited, h.names, columns)
      decreases size
    {
      hide Affords;
      FewNames(identities, size);
      assert identities[0] in Firsts(identities, size);
      if size == 1 {
        assert Firsts(identities, 1) == {identities[0]};
      } else if !Affords(visited, Firsts(identities, size), columns) {
        HalvedMeans(visited, identities, columns, size / 2);
      }
    }

    /** What is at hand holds the first identity and fits, unless it was at hand before; and the source
        gives up only when that identity is not at hand and does not fit alone. */
    lemma PreparedMeans(held: Option<Held>, visited: set<Method>, identities: seq<Method>, first: bool)
      requires identities != [] && (held.Some? ==> Holds(held.value))
      ensures var r := Prepared(held, visited, identities, first);
              match r
              case None => !(held.Some? && identities[0] in held.value.names) && !Affords(visited, {identities[0]}, Asked(first))
              case Some(h) =>
                && Holds(h) && identities[0] in h.names
                && (r == held || (h.columns == Asked(first) && h.before == visited && Affords(visited, h.names, Asked(first))))
    {
      hide Affords, Halved;
      HalvedMeans(visited, identities, Asked(first), if |identities| <= BATCH then |identities| else BATCH);
    }
  }
}
