/** The source that keeps no index: it rescans the input for a batch of queued methods at a time,
    keeps their call sites up to the cut, and forgets everything but what has been visited. */
module FrontierGraphs {
  import opened Bytes
  import ClassData
  import opened Sorting
  import opened MethodOrder
  import opened MethodSelection
  import opened CallGraph
  import opened CallSites
  import opened FrontierScans

  type Member = ClassData.Member

  type Metadata = map<Method, Option<Definition>>

  /** Nothing kept changes, and what is new is among the names and undefined so far. */
  ghost predicate Room(before: Metadata, now: Metadata, names: set<Method>) {
    && (forall m :: m in before ==> m in now && now[m] == before[m])
    && forall m :: m in now && m !in before ==> m in names && now[m] == None
  }

  /** While places are made: what was charged and what is due make up the whole. */
  ghost predicate Making(cost: Method -> nat, before: Metadata, now: Metadata, names: set<Method>, left: set<Method>,
                         start: nat, retained: nat)
  {
    && left <= names && names - left <= now.Keys && Room(before, now, names)
    && retained + Due(cost, left, now.Keys) == start + Due(cost, names, before.Keys)
  }

  lemma MakingStarts(cost: Method -> nat, before: Metadata, names: set<Method>, start: nat)
    ensures Making(cost, before, before, names, names, start, start)
  {
  }

  lemma MakingStep(cost: Method -> nat, before: Metadata, now: Metadata, names: set<Method>, left: set<Method>, start: nat,
                   retained: nat, m: Method)
    requires Making(cost, before, now, names, left, start, retained) && m in left
    ensures m in now ==> Making(cost, before, now, names, left - {m}, start, retained)
    ensures m !in now ==> Making(cost, before, now[m := None], names, left - {m}, start, retained + cost(m))
    ensures m !in now ==> retained + cost(m) <= start + Due(cost, names, before.Keys) && Room(before, now, names)
  {
    hide Due;
    DueStep(cost, left, now.Keys, m);
    assert now[m := None].Keys == now.Keys + {m};
  }

  lemma MakingEnds(cost: Method -> nat, before: Metadata, now: Metadata, names: set<Method>, start: nat, retained: nat)
    requires Making(cost, before, now, names, {}, start, retained)
    ensures Room(before, now, names) && names <= now.Keys && retained == start + Due(cost, names, before.Keys)
  {
    hide Due, Room;
    DueNothing(cost, now.Keys);
    assert names - {} == names;
  }

  /** How a call site is told apart: by its position in the index, or by where it stands. */
  datatype Key = ById(id: nat) | BySite(caller: Method, address: nat)

  /** An adjacent edge as a source hands it over. */
  datatype Link = Link(key: Key, other: Method, row: EdgeRow)

  function KeyOf(g: Graph, indexed: bool, id: nat): Key
    requires id < |g.sites|
  {
    if indexed then ById(id) else BySite(g.sites[id].caller, g.sites[id].address)
  }

  function LinkOf(g: Graph, indexed: bool, column: Column, id: nat): Link
    requires id < |g.sites|
  {
    Link(KeyOf(g, indexed, id), OtherEnd(g, column, id), Row(g, id))
  }

  function Links(g: Graph, indexed: bool, column: Column, ids: seq<nat>): (r: seq<Link>)
    requires forall i :: 0 <= i < |ids| ==> ids[i] < |g.sites|
    ensures |r| == |ids| && forall i :: 0 <= i < |ids| ==> r[i] == LinkOf(g, indexed, column, ids[i])
  {
    seq(|ids|, i requires 0 <= i < |ids| => LinkOf(g, indexed, column, ids[i]))
  }

  /** The sites stand in the graph one after the other from a position on. */
  predicate Stretch(view: Graph, id: nat, sites: seq<Site>) {
    id + |sites| <= |view.sites| && view.sites[id..id + |sites|] == sites
  }

  lemma FlattenPiece<T>(xs: seq<T>, k: nat, f: T -> seq<Site>)
    requires k < |xs|
    ensures var before := |Flatten(xs[..k], f)|;
            && |Flatten(xs[..k + 1], f)| == before + |f(xs[k])| <= |Flatten(xs, f)|
            && Flatten(xs, f)[before..before + |f(xs[k])|] == f(xs[k])
  {
    hide Flatten;
    FlattenStep(xs, k, f);
    assert xs == xs[..k + 1] + xs[k + 1..];
    FlattenAppend(xs[..k + 1], xs[k + 1..], f);
  }

  /** A piece of a stretch made of pieces. */
  lemma StretchPiece<T>(view: Graph, id: nat, xs: seq<T>, f: T -> seq<Site>, k: nat)
    requires Stretch(view, id, Flatten(xs, f)) && k < |xs|
    ensures |Flatten(xs[..k + 1], f)| == |Flatten(xs[..k], f)| + |f(xs[k])|
    ensures Stretch(view, id + |Flatten(xs[..k], f)|, f(xs[k]))
  {
    hide Flatten;
    FlattenPiece(xs, k, f);
    SliceOfSlice(view.sites, id, Flatten(xs, f), |Flatten(xs[..k], f)|, |f(xs[k])|);
  }

  lemma SliceOfSlice<T>(xs: seq<T>, id: nat, part: seq<T>, from: nat, count: nat)
    requires id + |part| <= |xs| && xs[id..id + |part|] == part && from + count <= |part|
    ensures xs[id + from..id + from + count] == part[from..from + count]
  {
    var a, b := xs[id + from..id + from + count], part[from..from + count];
    forall i | 0 <= i < count ensures a[i] == b[i] {
      assert xs[id..id + |part|][from + i] == xs[id + from + i];
    }
  }

  lemma StretchEnds<T>(xs: seq<T>, f: T -> seq<Site>)
    ensures |Flatten(xs[..0], f)| == 0 && Flatten(xs[..|xs|], f) == Flatten(xs, f)
  {
    assert xs[..|xs|] == xs;
  }

  lemma {:induction false} ChosenStep(d: Dex, names: set<Method>, columns: set<Column>, k: nat)
    requires k < |d.classes|
    ensures var rows := Filter(d.classes[k].row, Wanted(d, names, columns));
            Filter(MapRows(d.classes[..k + 1], Selected(d, names, columns)), OnRow(SomeRows())) ==
            Filter(MapRows(d.classes[..k], Selected(d, names, columns)), OnRow(SomeRows()))
            + if rows != [] then [Keyed(d.classes[k].key, rows)] else []
  {
    var select, keep := Selected(d, names, columns), OnRow(SomeRows());
    var row := Keyed(d.classes[k].key, select(d.classes[k].row));
    assert d.classes[..k + 1] == d.classes[..k] + [d.classes[k]];
    MapAppend(d.classes[..k], [d.classes[k]], select);
    assert MapRows([d.classes[k]], select) == [row];
    FilterAppend(MapRows(d.classes[..k], select), [row], keep);
    FilterOne(row, keep);
  }

  /** None of the call sites below `id` is asked for. */
  ghost predicate Unasked(view: Graph, names: set<Method>, columns: set<Column>, id: nat) {
    forall k :: 0 <= k < id && k < |view.sites| ==> !Relevant(view.sites[k], names, columns)
  }

  lemma UnaskedMeans(view: Graph, names: set<Method>, columns: set<Column>)
    ensures Unasked(view, names, columns, |view.sites|) <==>
            forall site :: site in view.sites ==> !Relevant(site, names, columns)
  {
    hide Relevant;
  }

  /** What is kept was asked for, and what is asked for is kept when nothing is. */
  lemma GatherKeeps(cap: nat, adjacency: Adjacency, names: set<Method>, columns: set<Column>, site: Site)
    requires cap > 0
    ensures Gather(cap, adjacency, names, columns, site) != adjacency ==> Relevant(site, names, columns)
    ensures adjacency == map[] && Relevant(site, names, columns) ==> Gather(cap, adjacency, names, columns, site) != adjacency
  {
    if adjacency == map[] && Relevant(site, names, columns) {
      var kept := Gather(cap, adjacency, names, columns, site);
      assert (Source, site.caller) in kept || (Target, site.callee) in kept;
    }
  }

  /** Nothing asked for, nothing kept. */
  lemma {:induction false} NothingScanned(view: Graph, cap: nat, names: set<Method>, columns: set<Column>, id: nat)
    requires id <= |view.sites| && cap > 0
    ensures Unasked(view, names, columns, |view.sites|) ==> ScanEnds(view, cap, map[], names, columns, id, names) == names
    decreases |view.sites| - id
  {
    hide Gather, Relevant;
    if id < |view.sites| {
      GatherKeeps(cap, map[], names, columns, view.sites[id]);
      NothingScanned(view, cap, names, columns, id + 1);
    }
  }

  lemma UndynamicStarts(g: Graph, names: set<Method>, left: set<Method>)
    requires left == g.definitions.Keys
    ensures Undynamic(g, names * (g.definitions.Keys - left))
  {
  }

  lemma UndynamicStep(g: Graph, names: set<Method>, left: set<Method>, m: Method)
    requires m in left && left <= g.definitions.Keys
    ensures Undynamic(g, names * (g.definitions.Keys - left)) && (m in names ==> g.Dynamics(m) == []) ==>
              Undynamic(g, names * (g.definitions.Keys - (left - {m})))
  {
  }

  lemma SomeDynamic(g: Graph, names: set<Method>, m: Method)
    requires m in names && g.Dynamics(m) != []
    ensures !Undynamic(g, names)
  {
  }

  lemma NothingDue(cost: Method -> nat, names: set<Method>, keys: set<Method>)
    requires names <= keys
    ensures Due(cost, names, keys) == 0
  {
    assert names - keys == {};
    SumOfNothing(cost);
  }

  lemma UndefinedHaveNone(g: Graph, names: set<Method>)
    requires Coded(g)
    ensures Undynamic(g, names) <==> Undynamic(g, names * (g.definitions.Keys - {}))
  {
  }

  class FrontierGraph {
    const s: Rescan
    var metadata: Metadata
    var visited: set<Method>
    var diagnostics: Diagnostics
    var frontier: Option<set<Method>>
    var adjacency: Adjacency
    var retained: nat
    /** The ends the frontier was scanned for, and what was visited then. */
    ghost var columns: set<Column>
    ghost var before: set<Method>

    constructor (s: Rescan)
      ensures this.s == s && Valid() && frontier == None && visited == {}
    {
      this.s := s;
      metadata, visited, diagnostics, frontier, adjacency, retained := map[], {}, map[], None, map[], 0;
      columns, before := {}, {};
    }

    ghost function AtHand(): Option<Held>
      reads this`frontier, this`columns, this`before
    {
      match frontier
      case None => None
      case Some(names) => Some(Held(names, columns, before))
    }

    /** What holds even after a batch did not fit: visited methods keep their definitions. */
    ghost predicate Remembers()
      reads this
    {
      forall m :: m in visited ==> m in metadata && metadata[m] == s.g.Definition(m)
    }

    /** What holds between batches: the definitions kept are right, and for every method of the
        frontier so is what the scan keeps of its ends, with the definitions of theirs. */
    ghost predicate Valid()
      reads this
    {
      && Remembers()
      && (forall m :: m in metadata ==> metadata[m] == s.g.Definition(m))
      && EndsAmong(adjacency, metadata.Keys)
      && (frontier.Some? ==> Scans(frontier.value))
    }

    /** The frontier has been scanned, at its cost. */
    ghost predicate Scans(names: set<Method>)
      reads this
    {
      && |names| <= BATCH && s.Asked(false) <= columns && before <= visited
      && retained == s.BatchCost(before, names, columns)
      && forall m :: m in names ==> m in metadata && Ready(s.View(names, columns), s.Cap(), adjacency, columns, m)
    }

    /** Charge one record, unless the budget is exceeded. */
    method Charge(size: nat) returns (ok: bool)
      modifies this`retained
      ensures retained == old(retained) + size && (ok <==> retained <= s.budget)
    {
      retained := retained + size;
      ok := retained <= s.budget;
    }

    /** Forget all definitions but those of visited methods, and charge for the names kept. */
    method Prune()
      requires Remembers()
      modifies this`metadata, this`retained
      ensures Remembers() && metadata.Keys == visited && retained == Sum(s.charges.name, visited)
      ensures forall m :: m in metadata ==> metadata[m] == s.g.Definition(m)
    {
      metadata := map m | m in metadata && m in visited :: metadata[m];
      retained := 0;
      var left, names := metadata.Keys, metadata;
      while left != {}
        invariant left <= names.Keys && metadata == names
        invariant retained + Sum(s.charges.name, left) == Sum(s.charges.name, names.Keys)
        decreases |left|
      {
        var m :| m in left;
        SumRemoves(s.charges.name, left, m);
        left := left - {m};
        retained := retained + s.charges.name(m);
      }
      SumOfNothing(s.charges.name);
      assert metadata.Keys == visited;
    }

    /** The scan has come to the call site `id`: what is kept and what is to come make up the cut
        adjacencies, the ends so far and to come the whole of them, and so the charges. */
    ghost predicate Scanning(names: set<Method>, columns: set<Column>, ends: set<Method>, id: nat, start: nat)
      reads this`adjacency, this`retained
    {
      var view := s.View(names, columns);
      && id <= |view.sites| && names <= ends && EndsAmong(adjacency, ends)
      && Gathered(view, s.Cap(), adjacency, names, columns, id)
      && ScanEnds(view, s.Cap(), adjacency, names, columns, id, ends) ==
         ScanEnds(view, s.Cap(), map[], names, columns, 0, names)
      && retained + ScanCost(view, s.charges, s.Cap(), adjacency, names, columns, id) ==
         start + ScanCost(view, s.charges, s.Cap(), map[], names, columns, 0)
      && Allowed(names, columns, ends, id)
    }

    /** The budget has held so far, unless nothing has been charged: no call site was kept. */
    ghost predicate Allowed(names: set<Method>, columns: set<Column>, ends: set<Method>, id: nat)
      reads this`adjacency, this`retained
    {
      || retained <= s.budget
      || (adjacency == map[] && ends == names && Unasked(s.View(names, columns), names, columns, id))
    }

    /** The budget is exceeded before the scan has come to its end, by a call site that is kept. */
    ghost predicate Exceeded(names: set<Method>, columns: set<Column>, start: nat)
      reads this`retained
    {
      var view := s.View(names, columns);
      && s.budget < retained <= start + ScanCost(view, s.charges, s.Cap(), map[], names, columns, 0)
      && !Unasked(view, names, columns, |view.sites|)
    }

    /** One call site, kept for the ends that have room. */
    method ScanSite(site: Site, names: set<Method>, columns: set<Column>, ends: set<Method>, ghost id: nat, ghost start: nat)
      returns (ok: bool, after: set<Method>)
      requires Scanning(names, columns, ends, id, start) && Stretch(s.View(names, columns), id, [site])
      modifies this`adjacency, this`retained
      ensures ok ==> Scanning(names, columns, after, id + 1, start)
      ensures !ok ==> Exceeded(names, columns, start)
    {
      hide Gather, Gathered, EndsAmong, Scanned, Relevant;
      ghost var view := s.View(names, columns);
      assert view.sites[id..id + 1][0] == view.sites[id];
      GatherKeeps(s.Cap(), adjacency, names, columns, site);
      GatherStep(view, s.Cap(), adjacency, names, columns, id);
      GatherEnds(view, s.Cap(), adjacency, names, columns, id, ends);
      ok, after := true, ends;
      var kept := Gather(s.Cap(), adjacency, names, columns, site);
      if kept != adjacency {
        ok := Charge(s.charges.site(site));
        if ok {
          adjacency := kept;
          after := ends + {site.caller, site.callee};
        }
      }
    }

    /** The call sites of one method. */
    method ScanMethod(d: Dex, m: Member, names: set<Method>, columns: set<Column>, ends: set<Method>, ghost id: nat,
                      ghost start: nat) returns (ok: bool, after: set<Method>)
      requires Scanning(names, columns, ends, id, start) && Stretch(s.View(names, columns), id, SitesIn(d)(m))
      modifies this`adjacency, this`retained
      ensures ok ==> Scanning(names, columns, after, id + |SitesIn(d)(m)|, start)
      ensures !ok ==> Exceeded(names, columns, start)
    {
      hide Scanning, Exceeded, Rescan.View;
      ok, after := true, ends;
      if m.code == 0 {
        return;
      }
      var calls := d.calls(m);
      ghost var sites := SitesIn(d)(m);
      for i := 0 to |calls|
        invariant ok && Scanning(names, columns, after, id + i, start)
      {
        ghost var view := s.View(names, columns);
        assert view.sites[id + i..id + i + 1] == [view.sites[id..id + |sites|][i]] == [sites[i]];
        ok, after := ScanSite(At(d.name(m.index), calls[i]), names, columns, after, id + i, start);
        if !ok {
          return;
        }
      }
    }

    /** The selected methods of one class, in the order methods are listed. */
    method ScanClass(d: Dex, rows: seq<Member>, names: set<Method>, columns: set<Column>, ends: set<Method>, ghost id: nat,
                     ghost start: nat) returns (ok: bool, after: set<Method>)
      requires Scanning(names, columns, ends, id, start) && Stretch(s.View(names, columns), id, ClassSites(d)(rows))
      modifies this`adjacency, this`retained
      ensures ok ==> Scanning(names, columns, after, id + |ClassSites(d)(rows)|, start)
      ensures !ok ==> Exceeded(names, columns, start)
    {
      hide Scanning, Exceeded, Rescan.View, Stretch, SitesIn, Ordered, Flatten;
      ok, after := true, ends;
      var ordered := OrderMethods(d.table, rows);
      ghost var f := SitesIn(d);
      StretchEnds(ordered, f);
      for i := 0 to |ordered|
        invariant ok && Scanning(names, columns, after, id + |Flatten(ordered[..i], f)|, start)
      {
        StretchPiece(s.View(names, columns), id, ordered, f, i);
        ok, after := ScanMethod(d, ordered[i], names, columns, after, id + |Flatten(ordered[..i], f)|, start);
        if !ok {
          return;
        }
      }
    }

    /** Select the methods that may match, class by class, and sort the classes that have any. */
    method Select(d: Dex, names: set<Method>, columns: set<Column>) returns (directory: seq<seq<Member>>)
      ensures directory == Rows(Sort(Chosen(d, names, columns)))
    {
      assert MapRows(d.classes[..0], Selected(d, names, columns)) == [];
      hide Sort, MapRows, Wanted;
      var chosen: seq<Keyed<seq<Member>>> := [];
      for i := 0 to |d.classes|
        invariant chosen == Filter(MapRows(d.classes[..i], Selected(d, names, columns)), OnRow(SomeRows()))
      {
        ChosenStep(d, names, columns, i);
        var rows := Filter(d.classes[i].row, Wanted(d, names, columns));
        if rows != [] {
          chosen := chosen + [Keyed(d.classes[i].key, rows)];
        }
      }
      assert d.classes[..|d.classes|] == d.classes;
      directory := Rows(Sort(chosen));
    }

    method ScanDex(d: Dex, names: set<Method>, columns: set<Column>, ends: set<Method>, ghost id: nat, ghost start: nat)
      returns (ok: bool, after: set<Method>)
      requires Scanning(names, columns, ends, id, start) && Stretch(s.View(names, columns), id, DexScan(names, columns)(d))
      modifies this`adjacency, this`retained
      ensures ok ==> Scanning(names, columns, after, id + |DexScan(names, columns)(d)|, start)
      ensures !ok ==> Exceeded(names, columns, start)
    {
      hide Scanning, Exceeded, Rescan.View, Stretch, ClassSites, Chosen, Sort, Rows, Flatten;
      ok, after := true, ends;
      var directory := Select(d, names, columns);
      ghost var f := ClassSites(d);
      StretchEnds(directory, f);
      for i := 0 to |directory|
        invariant ok && Scanning(names, columns, after, id + |Flatten(directory[..i], f)|, start)
      {
        StretchPiece(s.View(names, columns), id, directory, f, i);
        ok, after := ScanClass(d, directory[i], names, columns, after, id + |Flatten(directory[..i], f)|, start);
        if !ok {
          return;
        }
      }
    }

    /** Scan the input, keeping the call sites of the batch up to the cut. */
    method Scan(names: set<Method>, columns: set<Column>) returns (ok: bool, ends: set<Method>)
      modifies this`adjacency, this`retained
      ensures ok ==> names <= ends && EndsAmong(adjacency, ends)
      ensures ok ==> forall m :: m in names ==> Ready(s.View(names, columns), s.Cap(), adjacency, columns, m)
      ensures ok ==> ends == ScanEnds(s.View(names, columns), s.Cap(), map[], names, columns, 0, names)
      ensures ok ==> retained == old(retained) + ScanCost(s.View(names, columns), s.charges, s.Cap(), map[], names, columns, 0)
      ensures ok ==> Allowed(names, columns, ends, |s.View(names, columns).sites|)
      ensures !ok ==> Exceeded(names, columns, old(retained))
    {
      hide *;
      ghost var start, f := retained, DexScan(names, columns);
      adjacency, ends, ok := map[], names, true;
      ScanStarts(names, columns, start);
      StretchEnds(s.program, f);
      for i := 0 to |s.program|
        invariant ok && Scanning(names, columns, ends, |Flatten(s.program[..i], f)|, start)
      {
        StretchPiece(s.View(names, columns), 0, s.program, f, i);
        ok, ends := ScanDex(s.program[i], names, columns, ends, |Flatten(s.program[..i], f)|, start);
        if !ok {
          return;
        }
      }
      ScanDone(names, columns, ends, start);
    }

    lemma ScanStarts(names: set<Method>, columns: set<Column>, start: nat)
      requires adjacency == map[] && retained == start
      ensures Scanning(names, columns, names, 0, start)
      ensures Stretch(s.View(names, columns), 0, Flatten(s.program, DexScan(names, columns)))
      ensures |s.View(names, columns).sites| == |Flatten(s.program, DexScan(names, columns))|
    {
      hide Gathered, EndsAmong, Flatten, DexScan;
      NothingGathered(s.View(names, columns), s.Cap(), names, columns);
      NothingHasEnds(names);
    }

    lemma ScanDone(names: set<Method>, columns: set<Column>, ends: set<Method>, start: nat)
      requires Scanning(names, columns, ends, |s.View(names, columns).sites|, start)
      ensures names <= ends && EndsAmong(adjacency, ends)
      ensures forall m :: m in names ==> Ready(s.View(names, columns), s.Cap(), adjacency, columns, m)
      ensures ends == ScanEnds(s.View(names, columns), s.Cap(), map[], names, columns, 0, names)
      ensures retained == start + ScanCost(s.View(names, columns), s.charges, s.Cap(), map[], names, columns, 0)
      ensures Allowed(names, columns, ends, |s.View(names, columns).sites|)
    {
      hide Gathered, EndsAmong, Ready;
      GatheredIsReady(s.View(names, columns), s.Cap(), adjacency, names, columns);
    }

    /** A place for every name, charged unless there is one already. */
    method MakeRoom(names: set<Method>) returns (ok: bool)
      modifies this`metadata, this`retained
      ensures Room(old(metadata), metadata, names) && (ok ==> names <= metadata.Keys)
      ensures ok ==> retained == old(retained) + Due(s.charges.name, names, old(metadata.Keys))
      ensures ok ==> retained <= s.budget || (retained == old(retained) && names <= old(metadata.Keys))
      ensures !ok ==> s.budget < retained <= old(retained) + Due(s.charges.name, names, old(metadata.Keys))
      ensures !ok ==> !(names <= old(metadata.Keys))
    {
      hide Making, Room, Due, Sum;
      var left := names;
      ok := true;
      MakingStarts(s.charges.name, metadata, names, retained);
      while left != {}
        invariant Making(s.charges.name, old(metadata), metadata, names, left, old(retained), retained)
        invariant left <= names
        invariant retained <= s.budget || (metadata == old(metadata) && retained == old(retained) && names - left <= metadata.Keys)
        invariant metadata != old(metadata) ==> !(names <= old(metadata.Keys))
        invariant old(metadata.Keys) <= metadata.Keys
        decreases |left|
      {
        var m :| m in left;
        MakingStep(s.charges.name, old(metadata), metadata, names, left, old(retained), retained, m);
        if m !in metadata {
          ok := Charge(s.charges.name(m));
          if !ok {
            return;
          }
          metadata := metadata[m := None];
        }
        left := left - {m};
      }
      MakingEnds(s.charges.name, old(metadata), metadata, names, old(retained), retained);
    }

    /** Look the names up in the definitions of the input. */
    method Define(names: set<Method>)
      requires Remembers() && names <= metadata.Keys
      requires forall m :: m in metadata && m !in names ==> metadata[m] == s.g.Definition(m)
      requires forall m :: m in names && m !in s.g.definitions ==> metadata[m] == None
      modifies this`metadata
      ensures Remembers() && metadata.Keys == old(metadata.Keys)
      ensures forall m :: m in metadata ==> metadata[m] == s.g.Definition(m)
    {
      var left := s.g.definitions.Keys;
      while left != {}
        invariant left <= s.g.definitions.Keys && Remembers() && metadata.Keys == old(metadata.Keys)
        invariant forall m :: m in metadata && (m !in names || m !in left) ==> metadata[m] == s.g.Definition(m)
        decreases |left|
      {
        var m :| m in left;
        left := left - {m};
        if m in names {
          metadata := metadata[m := Some(s.g.definitions[m])];
        }
      }
    }

    /** Definitions for names that have none yet. */
    method Resolve(names: set<Method>) returns (ok: bool)
      requires Remembers() && names !! metadata.Keys
      requires forall m :: m in metadata ==> metadata[m] == s.g.Definition(m)
      modifies this`metadata, this`retained
      ensures Remembers()
      ensures ok ==> metadata.Keys == old(metadata.Keys) + names
      ensures ok ==> forall m :: m in metadata ==> metadata[m] == s.g.Definition(m)
      ensures ok ==> retained == old(retained) + Sum(s.charges.name, names)
      ensures ok ==> retained <= s.budget || (retained == old(retained) && names == {})
      ensures !ok ==> s.budget < retained <= old(retained) + Sum(s.charges.name, names) && names != {}
    {
      hide Sum;
      assert names - metadata.Keys == names;
      ok := MakeRoom(names);
      if ok {
        Define(names);
      }
    }

    /** Scan one batch: it fits exactly when its whole cost does, or nothing is charged. */
    method PrepareBatch(names: set<Method>, first: bool) returns (ok: bool)
      requires Remembers() && |names| <= BATCH
      modifies this`metadata, this`retained, this`frontier, this`adjacency, this`columns, this`before
      ensures Remembers() && (ok <==> s.Affords(visited, names, s.Asked(first)))
      ensures ok ==> Valid() && AtHand() == Some(Held(names, s.Asked(first), visited))
    {
      hide EndsAmong, Ready, Sum, ScanCost, ScanEnds, Unasked, Relevant, ScanGraph;
      ghost var columns' := s.Asked(first);
      frontier, columns, before := Some(names), columns', visited;
      Prune();
      UnaskedMeans(s.View(names, columns'), names, columns');
      NothingScanned(s.View(names, columns'), s.Cap(), names, columns', 0);
      var ends: set<Method>;
      ok, ends := Scan(names, s.Asked(first));
      if ok {
        ok := Resolve(ends - metadata.Keys);
        if ok {
          EndsAmongMore(adjacency, ends, metadata.Keys);
        }
      }
    }

    /** Make the call sites of the first identity available, scanning a batch of up to 32 unless
        it is in the present one; a batch that does not fit is halved. */
    method Prepare(identities: seq<Method>, first: bool) returns (ok: bool)
      requires identities != [] && Valid() && (first ==> frontier == None)
      modifies this`metadata, this`retained, this`frontier, this`adjacency, this`columns, this`before
      ensures ok <==> s.Prepared(old(AtHand()), visited, identities, first).Some?
      ensures ok ==> Valid() && AtHand() == s.Prepared(old(AtHand()), visited, identities, first)
    {
      hide EndsAmong, Ready, Scans, Rescan.Affords, Rescan.BatchCost;
      if frontier.Some? && identities[0] in frontier.value {
        return true;
      }
      var size := if |identities| <= BATCH then |identities| else BATCH;
      ghost var prepared := s.Halved(visited, identities, s.Asked(first), size);
      while true
        invariant 1 <= size <= |identities| && size <= BATCH && Remembers()
        invariant s.Halved(visited, identities, s.Asked(first), size) == prepared
        decreases size
      {
        var names := set i | 0 <= i < size :: identities[i];
        FewNames(identities, size);
        ok := PrepareBatch(names, first);
        if ok {
          return;
        }
        adjacency := map[];
        if size == 1 {
          return;
        }
        size := if size / 2 > 1 then size / 2 else 1;
      }
    }

    /** The root must be defined or called. */
    method Root() returns (ok: bool, found: bool)
      requires Valid() && frontier == None && GraphOf(s.g, s.program)
      modifies this`metadata, this`retained, this`frontier, this`adjacency, this`columns, this`before
      ensures ok <==> s.Prepared(None, visited, [s.q.root], true).Some?
      ensures ok ==> Valid() && AtHand() == s.Prepared(None, visited, [s.q.root], true) && (found <==> Known(s.g, s.q.root))
      ensures ok ==> s.q.root in frontier.value && s.q.root in metadata
    {
      hide EndsAmong, Rescan.BatchCost, Ready, Rescan.Affords, Rescan.Halved;
      found := false;
      s.PreparedMeans(None, visited, [s.q.root], true);
      ok := Prepare([s.q.root], true);
      if ok {
        found := metadata[s.q.root].Some? || Get(adjacency, Target, s.q.root) != [];
        ReadyKeeps(frontier.value, columns, Target, s.q.root);
        KeptWhenCalled(s.g, s.program, frontier.value, columns, s.q.root, s.Cap());
      }
    }

    lemma ReadyKeeps(names: set<Method>, columns: set<Column>, column: Column, m: Method)
      requires Ready(s.View(names, columns), s.Cap(), adjacency, columns, m) && column in columns
      ensures Get(adjacency, column, m) == ScanKept(s.g, s.program, names, columns, column, m, s.Cap())
    {
    }

    method MakeNode(m: Method, distance: nat) returns (node: Node)
      requires Valid() && m in metadata
      modifies this`visited
      ensures Valid() && visited == old(visited) + {m} && node == NewNode(s.g, m, distance)
    {
      visited := visited + {m};
      node := Node(m, distance, metadata[m], NotExpanded);
    }

    /** What is handed over for one end of a method of the frontier. */
    method AdjacentLinks(m: Method, column: Column) returns (links: seq<Link>)
      requires Valid() && GraphOf(s.g, s.program) && frontier.Some? && m in frontier.value && column in s.Asked(false)
      ensures s.Holds(AtHand().value) && links == Links(s.g, false, column, s.Handed(AtHand().value, m).In(column))
      ensures forall i :: 0 <= i < |links| ==> links[i].other in metadata
    {
      hide Valid, GraphOf, Rescan.Handed, Rescan.Holds, AtHand;
      var sites := Get(adjacency, column, m);
      SitesKnown(column, m);
      links := [];
      for i := 0 to |sites|
        invariant |links| == i
        invariant forall j :: 0 <= j < i ==> links[j] == SiteLink(s.g, column, sites[j])
      {
        var site := sites[i];
        links := links + [Link(BySite(site.caller, site.address), if column == Source then site.callee else site.caller,
                               EdgeRow(site, metadata[site.callee]))];
      }
      HandedLinks(m, column, links);
    }

    lemma SitesKnown(column: Column, m: Method)
      requires Valid()
      ensures forall site :: site in Get(adjacency, column, m) ==>
                site.caller in metadata && site.callee in metadata && metadata[site.callee] == s.g.Definition(site.callee)
    {
      hide Scans, EndsAmong;
      SitesAmong(adjacency, metadata.Keys, column, m);
    }

    lemma HandedLinks(m: Method, column: Column, links: seq<Link>)
      requires Valid() && GraphOf(s.g, s.program) && frontier.Some? && m in frontier.value && column in s.Asked(false)
      requires var sites := Get(adjacency, column, m);
               |links| == |sites| && forall j :: 0 <= j < |sites| ==> links[j] == SiteLink(s.g, column, sites[j])
      ensures s.Holds(AtHand().value) && links == Links(s.g, false, column, s.Handed(AtHand().value, m).In(column))
    {
      hide Valid, GraphOf, FairIn, Get, Rescan.Handed, AtHand;
      HandedSites(m, column);
      SiteLinksAreLinks(s.g, column, Get(adjacency, column, m), links);
    }

    lemma HandedSites(m: Method, column: Column)
      requires Valid() && GraphOf(s.g, s.program) && frontier.Some? && m in frontier.value && column in s.Asked(false)
      ensures s.Holds(AtHand().value) && s.Handed(AtHand().value, m).In(column) == IdsOf(s.g, Get(adjacency, column, m))
      ensures Inside(s.g, s.Handed(AtHand().value, m)) && m in AtHand().value.names
      ensures forall site :: site in Get(adjacency, column, m) ==> site in s.g.sites
    {
      hide ScanKept, Ready, EndsAmong, Rescan.BatchCost, GraphOf;
      ReadyKeeps(frontier.value, columns, column, m);
      ScanKeptIsFair(s.g, s.program, frontier.value, columns, column, m, s.Cap());
    }

    /** Count the dynamic sites of one method, keeping and charging the first twenty. */
    method CountDynamics(m: Method) returns (ok: bool, count: nat, sites: seq<Diagnostic>)
      modifies this`retained
      ensures ok ==> count == |s.g.Dynamics(m)| && sites == FirstRows(s.g.Dynamics(m), KEPT)
      ensures ok ==> retained == old(retained) + s.DiagnosticCost()(m)
      ensures ok ==> retained <= s.budget || (s.g.Dynamics(m) == [] && retained == old(retained))
      ensures !ok ==> s.budget < retained <= old(retained) + s.DiagnosticCost()(m) && s.g.Dynamics(m) != []
    {
      hide RowsCost, FirstRows;
      var rows := s.g.Dynamics(m);
      ok, count, sites := true, 0, [];
      NoRowsCost(s.charges, m, rows);
      while count < |rows|
        invariant 0 <= count <= |rows| && sites == FirstRows(rows[..count], KEPT)
        invariant retained == old(retained) + RowsCost(s.charges, m, sites)
        invariant retained <= s.budget || (count == 0 && retained == old(retained))
      {
        FirstRowsStep(s.charges, m, rows, count);
        FirstRowsCost(s.charges, m, rows, count + 1);
        if |sites| < KEPT {
          ok := Charge(s.charges.diagnostic(m, rows[count]));
          if !ok {
            return;
          }
          sites := sites + [rows[count]];
        }
        count := count + 1;
      }
      assert rows[..|rows|] == rows;
    }

    /** The dynamic sites of the methods that were listed: they fit exactly when they do beside the
        frontier at hand, or there are none. */
    method PrepareDiagnostics(names: set<Method>) returns (ok: bool)
      requires Valid() && frontier.Some? && names <= metadata.Keys && Coded(s.g)
      modifies this`metadata, this`retained, this`diagnostics
      ensures ok <==> s.AffordsSites(old(AtHand()).value, names)
      ensures ok ==> forall m :: m in names ==>
                m in diagnostics && diagnostics[m] == (|s.g.Dynamics(m)|, FirstRows(s.g.Dynamics(m), KEPT))
    {
      RetainedIs(names);
      hide Valid, Rescan.AffordsSites, Rescan.DiagnosticsCost, Undynamic, FirstRows, AtHand;
      ok := Recall(names);
      ok := Diagnose(names);
    }

    /** Listed methods have definitions already, so nothing is charged for them. */
    method Recall(names: set<Method>) returns (ok: bool)
      requires Valid() && names <= metadata.Keys
      modifies this`metadata, this`retained
      ensures ok && retained == old(retained)
    {
      NothingDue(s.charges.name, names, metadata.Keys);
      hide EndsAmong, Scans, Due;
      ok := MakeRoom(names);
      Define(names);
    }

    lemma RetainedIs(names: set<Method>)
      requires Valid() && frontier.Some?
      ensures AtHand().Some?
      ensures s.AffordsSites(AtHand().value, names) <==>
              retained + s.DiagnosticsCost(names) <= s.budget || Undynamic(s.g, names)
    {
      hide EndsAmong, Ready, Rescan.BatchCost;
    }

    method Diagnose(names: set<Method>) returns (ok: bool)
      requires Coded(s.g)
      modifies this`retained, this`diagnostics
      ensures ok ==> Diagnosed(s.g, diagnostics, names, {})
      ensures ok <==> old(retained) + s.DiagnosticsCost(names) <= s.budget || Undynamic(s.g, names)
    {
      hide FirstRows, Diagnosed, Coded, Sum, Undynamic;
      ok := true;
      diagnostics := map m | m in names :: (0, []);
      var left := s.g.definitions.Keys;
      NoDynamics(s.g, names, left);
      UndynamicStarts(s.g, names, left);
      while left != {}
        invariant left <= s.g.definitions.Keys
        invariant Diagnosed(s.g, diagnostics, names, left)
        invariant retained + Sum(s.DiagnosticCost(), names * left) == old(retained) + s.DiagnosticsCost(names)
        invariant retained <= s.budget || Undynamic(s.g, names * (s.g.definitions.Keys - left))
        decreases |left|
      {
        var m :| m in left;
        if m in names {
          SumRemoves(s.DiagnosticCost(), names * left, m);
          assert names * left - {m} == names * (left - {m});
        } else {
          assert names * left == names * (left - {m});
        }
        if m in names && !s.g.definitions[m].without {
          var count, sites;
          ok, count, sites := CountDynamics(m);
          if !ok {
            SomeDynamic(s.g, names, m);
            return;
          }
          DiagnosedStep(s.g, diagnostics, names, left, m);
          diagnostics := diagnostics[m := (count, sites)];
        } else {
          DiagnosedSkip(s.g, diagnostics, names, left, m);
          if m in names {
            NothingToKeep(m);
          }
        }
        UndynamicStep(s.g, names, left, m);
        left := left - {m};
      }
      assert names * left == {};
      SumOfNothing(s.DiagnosticCost());
      UndefinedHaveNone(s.g, names);
    }

    lemma NothingToKeep(m: Method)
      requires Coded(s.g) && m in s.g.definitions && s.g.definitions[m].without
      ensures s.DiagnosticCost()(m) == 0 && s.g.Dynamics(m) == []
    {
    }

    method Dynamic(m: Method, limit: nat) returns (count: nat, rows: seq<Diagnostic>)
      requires m in diagnostics
      ensures count == diagnostics[m].0 && rows == FirstRows(diagnostics[m].1, limit)
    {
      count := diagnostics[m].0;
      rows := if |diagnostics[m].1| <= limit then diagnostics[m].1 else diagnostics[m].1[..limit];
    }
  }

  lemma NoRowsCost(charges: Charges, m: Method, rows: seq<Diagnostic>)
    ensures FirstRows(rows[..0], KEPT) == [] && RowsCost(charges, m, []) == 0
  {
  }

  type Diagnostics = map<Method, (nat, seq<Diagnostic>)>

  ghost predicate Diagnosed(g: Graph, diagnostics: Diagnostics, names: set<Method>, left: set<Method>) {
    forall m :: m in names ==>
      m in diagnostics && diagnostics[m] == if m in left then (0, []) else (|g.Dynamics(m)|, FirstRows(g.Dynamics(m), KEPT))
  }

  lemma NoDynamics(g: Graph, names: set<Method>, left: set<Method>)
    requires Coded(g) && left == g.definitions.Keys
    ensures Diagnosed(g, map m | m in names :: (0, []), names, left)
  {
  }

  lemma DiagnosedStep(g: Graph, diagnostics: Diagnostics, names: set<Method>, left: set<Method>, m: Method)
    requires Diagnosed(g, diagnostics, names, left)
    ensures Diagnosed(g, diagnostics[m := (|g.Dynamics(m)|, FirstRows(g.Dynamics(m), KEPT))], names, left - {m})
  {
    hide FirstRows;
  }

  lemma DiagnosedSkip(g: Graph, diagnostics: Diagnostics, names: set<Method>, left: set<Method>, m: Method)
    requires Diagnosed(g, diagnostics, names, left) && Coded(g) && m in g.definitions
    requires m !in names || g.definitions[m].without
    ensures Diagnosed(g, diagnostics, names, left - {m})
  {
    assert m in names ==> g.Dynamics(m) == [] && FirstRows(g.Dynamics(m), KEPT) == [];
  }

  lemma FirstOfFirst(rows: seq<Diagnostic>, limit: nat)
    requires limit <= KEPT
    ensures FirstRows(FirstRows(rows, KEPT), limit) == FirstRows(rows, limit)
  {
  }

  function SiteLink(g: Graph, column: Column, site: Site): Link {
    Link(BySite(site.caller, site.address), if column == Source then site.callee else site.caller,
         EdgeRow(site, g.Definition(site.callee)))
  }

  lemma SitesAmong(adjacency: Adjacency, names: set<Method>, column: Column, m: Method)
    requires EndsAmong(adjacency, names)
    ensures var sites := Get(adjacency, column, m);
            forall i :: 0 <= i < |sites| ==> sites[i].caller in names && sites[i].callee in names
  {
    assert (column, m) in adjacency || Get(adjacency, column, m) == [];
  }

  lemma SiteLinksAreLinks(g: Graph, column: Column, sites: seq<Site>, links: seq<Link>)
    requires |links| == |sites| && forall j :: 0 <= j < |sites| ==> links[j] == SiteLink(g, column, sites[j])
    requires forall site :: site in sites ==> site in g.sites
    requires forall i :: 0 <= i < |IdsOf(g, sites)| ==> IdsOf(g, sites)[i] < |g.sites|
    ensures links == Links(g, false, column, IdsOf(g, sites))
  {
    forall j | 0 <= j < |links| ensures links[j] == LinkOf(g, false, column, IdsOf(g, sites)[j]) {
      assert sites[j] in sites;
    }
  }

  lemma EndsAmongMore(adjacency: Adjacency, a: set<Method>, b: set<Method>)
    requires EndsAmong(adjacency, a) && a <= b
    ensures EndsAmong(adjacency, b)
  {
  }

  /** The scan keeps a call to a method of the frontier exactly when the input has any. */
  lemma KeptWhenCalled(g: Graph, program: seq<Dex>, names: set<Method>, columns: set<Column>, m: Method, cap: nat)
    requires GraphOf(g, program) && Target in columns && m in names && cap > 0
    ensures ScanKept(g, program, names, columns, Target, m, cap) != [] <==>
            exists id :: 0 <= id < |g.sites| && g.sites[id].callee == m
  {
    hide ScanKept, AllDeclared, Addressed, Sites;
    var kept := ScanKept(g, program, names, columns, Target, m, cap);
    ScanKeptIsFair(g, program, names, columns, Target, m, cap);
    if kept != [] {
      assert kept[0] in kept && kept[0] in g.sites;
    }
    if id :| 0 <= id < |g.sites| && g.sites[id].callee == m {
      assert g.sites[id] in g.sites && EndIs(Target, m)(g.sites[id]);
    }
  }
}
