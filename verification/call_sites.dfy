/** The call sites of an input: in the order the index numbers them, and in the order in which a
    selection of methods is scanned. */
module CallSites {
  import opened ClassData
  import opened Sorting
  import opened MethodOrder
  import opened MethodSelection
  import opened CallGraph

  /** An invocation: the method it names, where it stands in its method, and its opcode. */
  datatype Call = Call(callee: Method, address: nat, opcode: nat)

  /** One DEX: its pools, the descriptors of its method indices, the invocations of each method in
      code order, and the methods of its classes in file order under the key of their owner. */
  datatype Dex = Dex(table: Table, name: nat -> Method, calls: Member -> seq<Call>, classes: seq<Keyed<seq<Member>>>)

  function Located(caller: Method, calls: seq<Call>): (r: seq<Site>)
    ensures |r| == |calls| && forall i :: 0 <= i < |r| ==> r[i] == At(caller, calls[i])
  {
    seq(|calls|, i requires 0 <= i < |calls| => At(caller, calls[i]))
  }

  function At(caller: Method, call: Call): Site {
    Site(caller, call.callee, call.address, call.opcode)
  }

  /** The call sites of one method. */
  function SitesIn(d: Dex): Member -> seq<Site> {
    (m: Member) => if m.code == 0 then [] else Located(d.name(m.index), d.calls(m))
  }

  /** The call sites of some methods of one class, in the order methods are listed. */
  function ClassSites(d: Dex): seq<Member> -> seq<Site> {
    (rows: seq<Member>) => Flatten(Ordered(d.table, rows), SitesIn(d))
  }

  function DexSites(): Dex -> seq<Site> {
    (d: Dex) => Flatten(Rows(Sort(d.classes)), ClassSites(d))
  }

  /** Every call site, in the order of the index: DEX by DEX, owner by owner, method by method. */
  function Sites(program: seq<Dex>): seq<Site> {
    Flatten(program, DexSites())
  }

  // ---------------------------------------------------------------------------------------
  // A frontier
  // ---------------------------------------------------------------------------------------

  predicate Polymorphic(opcode: nat) {
    opcode == 0xFA || opcode == 0xFB
  }

  /** What the selection pass keeps for the methods of a frontier: methods that call one of them when
      callers are asked for, those methods themselves when callees are, and any with a polymorphic
      invocation. */
  function Wanted(d: Dex, names: set<Method>, columns: set<Column>): Member -> bool {
    (m: Member) =>
      || (Source in columns && d.name(m.index) in names)
      || (m.code != 0 && exists i :: 0 <= i < |d.calls(m)| && Reason(d.calls(m)[i], names, columns))
  }

  predicate Reason(call: Call, names: set<Method>, columns: set<Column>) {
    Polymorphic(call.opcode) || (Target in columns && call.callee in names)
  }

  function Selected(d: Dex, names: set<Method>, columns: set<Column>): seq<Member> -> seq<Member> {
    (rows: seq<Member>) => Filter(rows, Wanted(d, names, columns))
  }

  function SomeRows(): seq<Member> -> bool {
    (rows: seq<Member>) => rows != []
  }

  /** The classes with selected methods, in file order. */
  function Chosen(d: Dex, names: set<Method>, columns: set<Column>): seq<Keyed<seq<Member>>> {
    Filter(MapRows(d.classes, Selected(d, names, columns)), OnRow(SomeRows()))
  }

  function DexScan(names: set<Method>, columns: set<Column>): Dex -> seq<Site> {
    (d: Dex) => Flatten(Rows(Sort(Chosen(d, names, columns))), ClassSites(d))
  }

  /** The call sites of the selected methods, in the order they are scanned. */
  function Scanned(program: seq<Dex>, names: set<Method>, columns: set<Column>): seq<Site> {
    Flatten(program, DexScan(names, columns))
  }

  /** The scan of a DEX goes through all sorted classes, reduced to what is selected of them. */
  lemma DexScanIs(d: Dex, names: set<Method>, columns: set<Column>)
    ensures DexScan(names, columns)(d) ==
            Flatten(Rows(Sort(d.classes)), Then(Selected(d, names, columns), ClassSites(d)))
  {
    assert Flatten(Ordered(d.table, []), SitesIn(d)) == [];
    SortedSelection(d.classes, Selected(d, names, columns), SomeRows(), ClassSites(d));
  }

  // ---------------------------------------------------------------------------------------
  // What a scan covers
  // ---------------------------------------------------------------------------------------

  /** A call site the frontier asks for. */
  predicate Relevant(site: Site, names: set<Method>, columns: set<Column>) {
    (Source in columns && site.caller in names) || (Target in columns && site.callee in names)
  }

  lemma {:induction false} FilterWeight<T>(xs: seq<T>, keep: T -> bool, w: T -> nat)
    ensures Weight(Filter(xs, keep), w) <= Weight(xs, w)
    ensures (forall x :: x in xs && !keep(x) ==> w(x) == 0) ==> Weight(Filter(xs, keep), w) == Weight(xs, w)
  {
    if xs != [] {
      assert xs[0] in xs;
      FilterWeight(xs[1..], keep, w);
      if keep(xs[0]) {
        assert Filter(xs, keep)[1..] == Filter(xs[1..], keep);
      } else {
        assert Filter(xs, keep) == Filter(xs[1..], keep);
      }
    }
  }

  lemma {:induction false} WeightLess<T>(xs: seq<T>, v: T -> nat, w: T -> nat)
    requires forall x :: x in xs ==> v(x) <= w(x)
    ensures Weight(xs, v) <= Weight(xs, w)
  {
    if xs != [] {
      assert xs[0] in xs;
      WeightLess(xs[1..], v, w);
    }
  }

  function Occurs(site: Site): Site -> nat {
    (x: Site) => if x == site then 1 else 0
  }

  lemma {:induction false} OccursCounts(xs: seq<Site>, site: Site)
    ensures Weight(xs, Occurs(site)) == multiset(xs)[site]
  {
    if xs != [] {
      assert xs == [xs[0]] + xs[1..];
      OccursCounts(xs[1..], site);
    }
  }

  /** A method that is dropped has no call site the frontier asks for. */
  lemma {:induction false} DroppedIsIrrelevant(d: Dex, names: set<Method>, columns: set<Column>, m: Member, site: Site)
    requires !Wanted(d, names, columns)(m) && Relevant(site, names, columns)
    ensures WeightIn(SitesIn(d), Occurs(site))(m) == 0
  {
    if m.code != 0 {
      var sites := SitesIn(d)(m);
      forall i | 0 <= i < |sites| ensures sites[i] != site {
        assert !Reason(d.calls(m)[i], names, columns);
      }
      OccursCounts(sites, site);
    }
  }

  /** Of the call sites of a class a scan sees none more often than the index, and those the
      frontier asks for as often. */
  lemma ClassCounts(d: Dex, names: set<Method>, columns: set<Column>, rows: seq<Member>, site: Site)
    ensures var few := WeightIn(Then(Selected(d, names, columns), ClassSites(d)), Occurs(site))(rows);
            var all := WeightIn(ClassSites(d), Occurs(site))(rows);
            few <= all && (Relevant(site, names, columns) ==> few == all)
  {
    var keep, w := Wanted(d, names, columns), WeightIn(SitesIn(d), Occurs(site));
    WeightFlatten(Ordered(d.table, Filter(rows, keep)), SitesIn(d), Occurs(site));
    WeightFlatten(Ordered(d.table, rows), SitesIn(d), Occurs(site));
    OrderedWeighs(d.table, Filter(rows, keep), w);
    OrderedWeighs(d.table, rows, w);
    FilterWeight(rows, keep, w);
    if Relevant(site, names, columns) {
      hide *;
      forall m | m in rows && !keep(m) ensures w(m) == 0 {
        DroppedIsIrrelevant(d, names, columns, m, site);
      }
    }
  }

  lemma DexWeights(d: Dex, names: set<Method>, columns: set<Column>, w: Site -> nat)
    ensures var sorted := Rows(Sort(d.classes));
            && WeightIn(DexScan(names, columns), w)(d) ==
               Weight(sorted, WeightIn(Then(Selected(d, names, columns), ClassSites(d)), w))
            && WeightIn(DexSites(), w)(d) == Weight(sorted, WeightIn(ClassSites(d), w))
  {
    hide Selected;
    hide ClassSites;
    hide Sort;
    var sorted := Rows(Sort(d.classes));
    DexScanIs(d, names, columns);
    WeightFlatten(sorted, Then(Selected(d, names, columns), ClassSites(d)), w);
    WeightFlatten(sorted, ClassSites(d), w);
  }

  lemma DexCounts(d: Dex, names: set<Method>, columns: set<Column>, site: Site)
    ensures var few := WeightIn(DexScan(names, columns), Occurs(site))(d);
            var all := WeightIn(DexSites(), Occurs(site))(d);
            few <= all && (Relevant(site, names, columns) ==> few == all)
  {
    hide *;
    var sorted := Rows(Sort(d.classes));
    var few := WeightIn(Then(Selected(d, names, columns), ClassSites(d)), Occurs(site));
    var all := WeightIn(ClassSites(d), Occurs(site));
    DexWeights(d, names, columns, Occurs(site));
    forall rows: seq<Member>
      ensures few(rows) <= all(rows) && (Relevant(site, names, columns) ==> few(rows) == all(rows))
    {
      ClassCounts(d, names, columns, rows, site);
    }
    WeightLess(sorted, few, all);
    if Relevant(site, names, columns) {
      WeightSame(sorted, few, all);
    }
  }

  /** A scan sees nothing twice that the index lists once, and everything the frontier asks for. */
  lemma ScanCounts(program: seq<Dex>, names: set<Method>, columns: set<Column>, site: Site)
    ensures multiset(Scanned(program, names, columns))[site] <= multiset(Sites(program))[site]
    ensures Relevant(site, names, columns) ==>
              multiset(Scanned(program, names, columns))[site] == multiset(Sites(program))[site]
  {
    var few, all := DexScan(names, columns), DexSites();
    assert Scanned(program, names, columns) == Flatten(program, few) && Sites(program) == Flatten(program, all);
    hide *;
    WeightFlatten(program, few, Occurs(site));
    WeightFlatten(program, all, Occurs(site));
    forall d: Dex
      ensures WeightIn(few, Occurs(site))(d) <= WeightIn(all, Occurs(site))(d)
      ensures Relevant(site, names, columns) ==> WeightIn(few, Occurs(site))(d) == WeightIn(all, Occurs(site))(d)
    {
      DexCounts(d, names, columns, site);
    }
    WeightLess(program, WeightIn(few, Occurs(site)), WeightIn(all, Occurs(site)));
    if Relevant(site, names, columns) {
      WeightSame(program, WeightIn(few, Occurs(site)), WeightIn(all, Occurs(site)));
    }
    OccursCounts(Scanned(program, names, columns), site);
    OccursCounts(Sites(program), site);
  }

  /** What a scan covers: call sites of the index, and all the frontier asks for. */
  lemma ScanCovers(program: seq<Dex>, names: set<Method>, columns: set<Column>)
    ensures multiset(Scanned(program, names, columns)) <= multiset(Sites(program))
    ensures forall site :: site in Sites(program) && Relevant(site, names, columns) ==>
              site in Scanned(program, names, columns)
  {
    hide *;
    var few, all := Scanned(program, names, columns), Sites(program);
    forall site ensures multiset(few)[site] <= multiset(all)[site] {
      ScanCounts(program, names, columns, site);
    }
    forall site | site in all && Relevant(site, names, columns) ensures site in few {
      ScanCounts(program, names, columns, site);
      assert site in multiset(all) && site in multiset(few);
    }
  }

  // ---------------------------------------------------------------------------------------
  // In which order a scan comes upon the call sites of one method
  // ---------------------------------------------------------------------------------------

  function EndIs(column: Column, m: Method): Site -> bool {
    (site: Site) => (if column == Source then site.caller else site.callee) == m
  }

  function Showing<T>(f: T -> seq<Site>, p: Site -> bool): T -> seq<Site> {
    x => Filter(f(x), p)
  }

  /** No two methods of a class share a descriptor. */
  ghost predicate Declared(d: Dex, rows: seq<Member>) {
    forall x, y :: x in rows && y in rows && d.name(x.index) == d.name(y.index) ==> x == y
  }

  ghost predicate AllDeclared(program: seq<Dex>) {
    forall d, rows :: d in program && rows in Rows(d.classes) ==> Declared(d, rows)
  }

  /** In some class, two methods with such call sites change places when the methods wanted for the
      frontier are ordered without the others. */
  ghost predicate Shuffles(program: seq<Dex>, names: set<Method>, columns: set<Column>, p: Site -> bool) {
    exists d, rows :: d in program && rows in Rows(d.classes) && ShufflesClass(d, rows, names, columns, p)
  }

  ghost predicate ShufflesClass(d: Dex, rows: seq<Member>, names: set<Method>, columns: set<Column>, p: Site -> bool) {
    Reorders(d.table, rows, Wanted(d, names, columns), Shows(Showing(SitesIn(d), p)))
  }

  /** Call sites among those the frontier asks for. */
  ghost predicate Among(p: Site -> bool, names: set<Method>, columns: set<Column>) {
    forall site :: p(site) ==> Relevant(site, names, columns)
  }

  lemma EndsAreAmong(names: set<Method>, columns: set<Column>, column: Column, m: Method)
    requires column in columns && m in names
    ensures Among(EndIs(column, m), names, columns)
  {
  }

  /** A method with a call site the frontier asks for is wanted; what it shows names it. */
  lemma ShownIsWanted(d: Dex, names: set<Method>, columns: set<Column>, p: Site -> bool, x: Member)
    requires Among(p, names, columns)
    ensures var shown := Showing(SitesIn(d), p)(x);
            shown != [] ==> Wanted(d, names, columns)(x) && p(shown[0]) && shown[0].caller == d.name(x.index)
  {
    var shown := Showing(SitesIn(d), p)(x);
    if shown != [] {
      assert shown[0] in shown;
      FilterMember(SitesIn(d)(x), p, shown[0]);
      var i :| 0 <= i < |SitesIn(d)(x)| && SitesIn(d)(x)[i] == shown[0];
      assert Relevant(shown[0], names, columns);
      assert Target in columns && shown[0].callee in names ==> Reason(d.calls(x)[i], names, columns);
    }
  }

  lemma ClassShows(d: Dex, rows: seq<Member>, names: set<Method>, columns: set<Column>, p: Site -> bool)
    ensures var show := Showing(SitesIn(d), p);
            && Showing(Then(Selected(d, names, columns), ClassSites(d)), p)(rows) ==
               Flatten(Ordered(d.table, Filter(rows, Wanted(d, names, columns))), show)
            && Showing(ClassSites(d), p)(rows) == Flatten(Ordered(d.table, rows), show)
  {
    hide SitesIn;
    hide Wanted;
    hide Ordered;
    var show := Showing(SitesIn(d), p);
    FlattenFilter(Ordered(d.table, Filter(rows, Wanted(d, names, columns))), SitesIn(d), show, p);
    FlattenFilter(Ordered(d.table, rows), SitesIn(d), show, p);
  }

  /** Such call sites of one class: as many in a scan as in the index, and in the same order unless
      two methods that have any change places. */
  lemma ClassOrder(d: Dex, rows: seq<Member>, names: set<Method>, columns: set<Column>, p: Site -> bool)
    requires Declared(d, rows) && Among(p, names, columns)
    ensures var few := Showing(Then(Selected(d, names, columns), ClassSites(d)), p)(rows);
            var all := Showing(ClassSites(d), p)(rows);
            |few| == |all| && (few == all <==> !ShufflesClass(d, rows, names, columns, p))
  {
    hide *;
    var keep, show := Wanted(d, names, columns), Showing(SitesIn(d), p);
    ClassShows(d, rows, names, columns, p);
    ShownAreWanted(d, rows, names, columns, p);
    SelectedLength(d.table, rows, keep, show);
    ShownAlike(d.table, rows, keep, show);
    ShufflesClassIs(d, rows, names, columns, p);
  }

  lemma ShufflesClassIs(d: Dex, rows: seq<Member>, names: set<Method>, columns: set<Column>, p: Site -> bool)
    ensures ShufflesClass(d, rows, names, columns, p) <==>
            Reorders(d.table, rows, Wanted(d, names, columns), Shows(Showing(SitesIn(d), p)))
  {
  }

  lemma ShownAreWanted(d: Dex, rows: seq<Member>, names: set<Method>, columns: set<Column>, p: Site -> bool)
    requires Declared(d, rows) && Among(p, names, columns)
    ensures var keep, show := Wanted(d, names, columns), Showing(SitesIn(d), p);
            && (forall x :: x in rows && !keep(x) ==> show(x) == []) && (forall x :: x in rows && show(x) != [] ==> keep(x))
            && Distinguishes(rows, show)
  {
    hide Wanted;
    hide SitesIn;
    hide Filter;
    hide Showing;
    hide Among;
    var keep, show := Wanted(d, names, columns), Showing(SitesIn(d), p);
    forall x: Member
      ensures show(x) != [] ==> keep(x) && show(x)[0].caller == d.name(x.index)
    {
      ShownIsWanted(d, names, columns, p, x);
    }
  }

  lemma DexShows(d: Dex, names: set<Method>, columns: set<Column>, p: Site -> bool)
    ensures var sorted := Rows(Sort(d.classes));
            && Showing(DexScan(names, columns), p)(d) ==
               Flatten(sorted, Showing(Then(Selected(d, names, columns), ClassSites(d)), p))
            && Showing(DexSites(), p)(d) == Flatten(sorted, Showing(ClassSites(d), p))
  {
    hide Selected;
    hide ClassSites;
    hide Sort;
    var sorted := Rows(Sort(d.classes));
    var few := Then(Selected(d, names, columns), ClassSites(d));
    DexScanIs(d, names, columns);
    FlattenFilter(sorted, few, Showing(few, p), p);
    FlattenFilter(sorted, ClassSites(d), Showing(ClassSites(d), p), p);
  }

  ghost predicate ShufflesDex(d: Dex, names: set<Method>, columns: set<Column>, p: Site -> bool) {
    exists rows :: rows in Rows(d.classes) && ShufflesClass(d, rows, names, columns, p)
  }

  lemma DexOrder(d: Dex, names: set<Method>, columns: set<Column>, p: Site -> bool)
    requires Among(p, names, columns) && forall rows :: rows in Rows(d.classes) ==> Declared(d, rows)
    ensures var few, all := Showing(DexScan(names, columns), p)(d), Showing(DexSites(), p)(d);
            |few| == |all| && (few == all <==> !ShufflesDex(d, names, columns, p))
  {
    var sorted := Rows(Sort(d.classes));
    var few := Showing(Then(Selected(d, names, columns), ClassSites(d)), p);
    var all := Showing(ClassSites(d), p);
    DexShows(d, names, columns, p);
    SortSorts(d.classes);
    hide Showing;
    hide ShufflesClass;
    hide Sort;
    hide Flatten;
    hide ClassSites;
    hide Declared;
    hide Among;
    forall rows
      ensures rows in sorted <==> rows in Rows(d.classes)
      ensures rows in sorted ==>
                |few(rows)| == |all(rows)|
                && (few(rows) == all(rows) <==> !ShufflesClass(d, rows, names, columns, p))
    {
      RowsMember(d.classes, Sort(d.classes), rows);
      if rows in sorted {
        ClassOrder(d, rows, names, columns, p);
      }
    }
    FlattenPieces(sorted, few, all);
    FlattenPiecesLength(sorted, few, all);
  }

  lemma ProgramShows(program: seq<Dex>, names: set<Method>, columns: set<Column>, p: Site -> bool)
    ensures Filter(Scanned(program, names, columns), p) == Flatten(program, Showing(DexScan(names, columns), p))
    ensures Filter(Sites(program), p) == Flatten(program, Showing(DexSites(), p))
  {
    hide DexScan;
    hide DexSites;
    FlattenFilter(program, DexScan(names, columns), Showing(DexScan(names, columns), p), p);
    FlattenFilter(program, DexSites(), Showing(DexSites(), p), p);
  }

  /** Any part of the call sites a frontier asks for: a scan comes upon as many as the index has, and
      in the order of the index if and only if no two methods of one class that have any change
      places. */
  lemma ColumnOrder(program: seq<Dex>, names: set<Method>, columns: set<Column>, p: Site -> bool)
    requires AllDeclared(program) && Among(p, names, columns)
    ensures var few, all := Filter(Scanned(program, names, columns), p), Filter(Sites(program), p);
            |few| == |all| && (few == all <==> !Shuffles(program, names, columns, p))
  {
    var few, all := Showing(DexScan(names, columns), p), Showing(DexSites(), p);
    ProgramShows(program, names, columns, p);
    hide Showing;
    hide ShufflesClass;
    hide Flatten;
    hide Declared;
    hide Scanned;
    hide Sites;
    hide Filter;
    hide Among;
    forall d | d in program
      ensures |few(d)| == |all(d)|
      ensures few(d) == all(d) <==> !ShufflesDex(d, names, columns, p)
    {
      DexOrder(d, names, columns, p);
    }
    FlattenPieces(program, few, all);
    FlattenPiecesLength(program, few, all);
  }

  // ---------------------------------------------------------------------------------------
  // Frontiers and inputs that are safe from it, and one input that is not
  // ---------------------------------------------------------------------------------------

  /** The calls a method makes stand in one method, so nothing can change places. */
  lemma CallsNeverShuffle(program: seq<Dex>, names: set<Method>, columns: set<Column>, m: Method)
    requires AllDeclared(program) && Source in columns && m in names
    ensures !Shuffles(program, names, columns, EndIs(Source, m))
  {
    var p := EndIs(Source, m);
    assert forall site :: p(site) ==> site.caller == m;
    EndsAreAmong(names, columns, Source, m);
    hide EndIs;
    hide Wanted;
    hide Showing;
    hide Among;
    hide Swaps;
    forall d, rows | d in program && rows in Rows(d.classes) ensures !ShufflesClass(d, rows, names, columns, p) {
      assert Declared(d, rows);
      forall x: Member ensures Showing(SitesIn(d), p)(x) != [] ==> d.name(x.index) == m {
        ShownIsWanted(d, names, columns, p, x);
      }
      OneShowsNoSwap(d.table, rows, Wanted(d, names, columns), Shows(Showing(SitesIn(d), p)));
    }
  }

  lemma OneShowsNoSwap(t: Table, rows: seq<Member>, keep: Member -> bool, seen: Member -> bool)
    requires forall x, y :: x in rows && y in rows && seen(x) && seen(y) ==> x == y
    ensures !Reorders(t, rows, keep, seen)
  {
    hide UsedBefore;
  }

  /** Fewer call sites, fewer methods to change places. */
  lemma ShufflesLess(program: seq<Dex>, names: set<Method>, columns: set<Column>, few: Site -> bool, all: Site -> bool)
    requires forall site :: few(site) ==> all(site)
    ensures Shuffles(program, names, columns, few) ==> Shuffles(program, names, columns, all)
  {
    hide Wanted;
    hide SitesIn;
    hide Swaps;
    if Shuffles(program, names, columns, few) {
      var d, rows :| d in program && rows in Rows(d.classes) && ShufflesClass(d, rows, names, columns, few);
      forall x: Member | Showing(SitesIn(d), few)(x) != [] ensures Showing(SitesIn(d), all)(x) != [] {
        ShowsMore(SitesIn(d)(x), few, all);
      }
      hide Showing;
      assert ShufflesClass(d, rows, names, columns, all);
    }
  }

  lemma ShowsMore(sites: seq<Site>, few: Site -> bool, all: Site -> bool)
    requires Filter(sites, few) != [] && forall site :: few(site) ==> all(site)
    ensures Filter(sites, all) != []
  {
    var site := Filter(sites, few)[0];
    FilterMember(sites, few, site);
    FilterMember(sites, all, site);
  }

  /** No class uses two name indices of one text in alternation. */
  ghost predicate Untangled(program: seq<Dex>) {
    forall d, rows :: d in program && rows in Rows(d.classes) ==> TiesDoNotAlternate(d.table, rows)
  }

  lemma UntangledNeverShuffles(program: seq<Dex>, names: set<Method>, columns: set<Column>, p: Site -> bool)
    requires Untangled(program) && Among(p, names, columns)
    ensures !Shuffles(program, names, columns, p)
  {
    hide TiesDoNotAlternate;
    hide Reorders;
    hide Wanted;
    hide Showing;
    hide Among;
    forall d, rows | d in program && rows in Rows(d.classes)
      ensures !ShufflesClass(d, rows, names, columns, p)
    {
      forall x: Member
        ensures Showing(SitesIn(d), p)(x) != [] ==> Wanted(d, names, columns)(x)
      {
        ShownIsWanted(d, names, columns, p, x);
      }
      NeverReorders(d.table, rows, Wanted(d, names, columns), Shows(Showing(SitesIn(d), p)));
    }
  }

  /** A DEX in whose string pool one name stands twice: of three overloads the first and the last use
      one copy, the second the other, and the last two call method 9. */
  function TangledDex(): Dex {
    Dex(Table((index: nat) => if index == 1 then 1 else 0, (id: nat) => [97], (index: nat) => [index]),
        (index: nat) => index,
        (m: Member) => if m.index == 0 then [] else [Call(9, 0, 0x6E)],
        [Keyed([], [Overload(0), Overload(1), Overload(2)])])
  }

  function Overload(index: nat): Member {
    Member(2, index, 0, 16)
  }

  /** The index lists the call of the last overload before that of the second; a scan for the callers
      of method 9, which leaves the first overload out, comes upon them the other way round. */
  lemma TangledInput()
    ensures Sites([TangledDex()]) == [Site(2, 9, 0, 0x6E), Site(1, 9, 0, 0x6E)]
    ensures Scanned([TangledDex()], {9}, {Target}) == [Site(1, 9, 0, 0x6E), Site(2, 9, 0, 0x6E)]
    ensures AllDeclared([TangledDex()])
    ensures Shuffles([TangledDex()], {9}, {Target}, EndIs(Target, 9))
  {
    hide *;
    var program := [TangledDex()];
    var first, second := Site(1, 9, 0, 0x6E), Site(2, 9, 0, 0x6E);
    TangledDeclared();
    TangledListings();
    EndsAreAmong({9}, {Target}, Target, 9);
    ColumnOrder(program, {9}, {Target}, EndIs(Target, 9));
    OrderStays(first, second, EndIs(Target, 9));
    CallsNine();
  }

  lemma CallsNine()
    ensures EndIs(Target, 9)(Site(1, 9, 0, 0x6E)) && EndIs(Target, 9)(Site(2, 9, 0, 0x6E))
  {
  }

  lemma OrderStays(x: Site, y: Site, keep: Site -> bool)
    ensures keep(x) && keep(y) && x != y ==> Filter([x, y], keep) != Filter([y, x], keep)
  {
    FilterTwo(x, y, keep);
    FilterTwo(y, x, keep);
    hide Filter;
    if keep(x) && keep(y) && x != y {
      assert ([x] + [y])[0] != ([y] + [x])[0];
    }
  }

  lemma TangledListings()
    ensures Sites([TangledDex()]) == [Site(2, 9, 0, 0x6E), Site(1, 9, 0, 0x6E)]
    ensures Scanned([TangledDex()], {9}, {Target}) == [Site(1, 9, 0, 0x6E), Site(2, 9, 0, 0x6E)]
  {
    hide TangledDex;
    hide DexSites;
    hide DexScan;
    TangledSites();
    TangledScan();
    FlattenOne(TangledDex(), DexSites());
    FlattenOne(TangledDex(), DexScan({9}, {Target}));
  }

  lemma TangledDeclared()
    ensures AllDeclared([TangledDex()])
  {
    var d := TangledDex();
    assert [d.classes[0]][1..] == [];
    assert Rows(d.classes) == [d.classes[0].row];
  }

  lemma FlattenOne<T, U>(x: T, f: T -> seq<U>)
    ensures Flatten([x], f) == f(x)
  {
    assert [x][1..] == [];
  }

  lemma FlattenTwo<T, U>(x: T, y: T, f: T -> seq<U>)
    ensures Flatten([x, y], f) == f(x) + f(y)
  {
    assert [x, y][1..] == [y];
    FlattenOne(y, f);
  }

  lemma FilterTwo<T>(x: T, y: T, keep: T -> bool)
    ensures Filter([x, y], keep) == (if keep(x) then [x] else []) + (if keep(y) then [y] else [])
  {
    assert [x, y] == [x] + [y];
    FilterCons(x, [y], keep);
    FilterOne(y, keep);
  }

  lemma TangledIds()
    ensures var t := TangledDex().table;
            && Ids(t, [Overload(1), Overload(2)]) == [1, 0]
            && Ids(t, [Overload(0), Overload(1), Overload(2)]) == [0, 1]
  {
    var t := TangledDex().table;
    var a, b, c := Overload(0), Overload(1), Overload(2);
    assert [b, c][..1] == [b] && [b][..0] == [];
    assert Ids(t, [b]) == [1];
    assert [a, b, c][..2] == [a, b] && [a, b][..1] == [a] && [a][..0] == [];
    assert Ids(t, [a]) == [0] && Ids(t, [a, b]) == [0, 1];
  }

  /** The overloads of one copy of the name, of which two are in order already. */
  lemma TangledOverloads()
    ensures var t := TangledDex().table;
            && Overloads(t, [Overload(1), Overload(2)], 1) == [Overload(1)]
            && Overloads(t, [Overload(1), Overload(2)], 0) == [Overload(2)]
            && Overloads(t, [Overload(0), Overload(1), Overload(2)], 0) == [Overload(0), Overload(2)]
            && Overloads(t, [Overload(0), Overload(1), Overload(2)], 1) == [Overload(1)]
  {
    var t := TangledDex().table;
    var a, b, c := Overload(0), Overload(1), Overload(2);
    assert [a, b, c] == [a] + [b, c];
    FilterCons(a, [b, c], Named(t, 0));
    FilterCons(a, [b, c], Named(t, 1));
    FilterTwo(b, c, Named(t, 0));
    FilterTwo(b, c, Named(t, 1));
    SortedAlready(t, [b]);
    SortedAlready(t, [c]);
    InOrderAlready(t, a, c);
  }

  lemma InOrderAlready(t: Table, x: Member, y: Member)
    requires !Less(t.prototype(y.index), t.prototype(x.index))
    ensures Rows(Sort(KeyedMethods(t, [x, y]))) == [x, y]
  {
    var a, b := Keyed(t.prototype(x.index), x), Keyed(t.prototype(y.index), y);
    assert [x, y][1..] == [y] && [y][1..] == [];
    assert KeyedMethods(t, [y]) == [b] + [];
    assert KeyedMethods(t, [x, y]) == [a] + [b] == [a, b];
    assert [a, b][1..] == [b];
    SortOne(b);
    assert Rows([a, b]) == [x] + Rows([b]);
  }

  lemma TangledOrder()
    ensures var t := TangledDex().table;
            && Ordered(t, [Overload(0), Overload(1), Overload(2)]) == [Overload(0), Overload(2), Overload(1)]
            && Ordered(t, [Overload(1), Overload(2)]) == [Overload(1), Overload(2)]
  {
    hide *;
    var t := TangledDex().table;
    var a, b, c := Overload(0), Overload(1), Overload(2);
    TangledIds();
    TangledOverloads();
    TangledTied();
    OrderedOfTwo(t, [a, b, c], 0, 1);
    OrderedOfTwo(t, [b, c], 1, 0);
    assert [a, c] + [b] == [a, c, b] && [b] + [c] == [b, c];
  }

  lemma TangledTied()
    ensures var t := TangledDex().table; SortIds(t, [0, 1]) == [0, 1] && SortIds(t, [1, 0]) == [1, 0]
  {
    var t := TangledDex().table;
    assert t.NameKey(0) == t.NameKey(1);
    hide *;
    TiedPair(t, 0, 1);
    TiedPair(t, 1, 0);
  }

  lemma OrderedOfTwo(t: Table, rows: seq<Member>, i: nat, j: nat)
    requires Ids(t, rows) == [i, j] && SortIds(t, [i, j]) == [i, j]
    ensures Ordered(t, rows) == Overloads(t, rows, i) + Overloads(t, rows, j)
  {
    hide Ids;
    hide Overloads;
    hide Sort;
    FlattenTwo<nat, Member>(i, j, OverloadsOf(t, rows));
  }

  lemma ClassSitesIs(d: Dex, rows: seq<Member>)
    ensures ClassSites(d)(rows) == Flatten(Ordered(d.table, rows), SitesIn(d))
    ensures DexSites()(d) == Flatten(Rows(Sort(d.classes)), ClassSites(d))
  {
  }

  lemma TangledClasses()
    ensures Rows(Sort(TangledDex().classes)) == [[Overload(0), Overload(1), Overload(2)]]
  {
    SortOne(TangledDex().classes[0]);
  }

  lemma ThenIs<T, U, V>(f: T -> U, g: U -> V, x: T)
    ensures Then(f, g)(x) == g(f(x))
  {
  }

  lemma TangledCalls()
    ensures var f := SitesIn(TangledDex());
            f(Overload(0)) == [] && f(Overload(1)) == [Site(1, 9, 0, 0x6E)] && f(Overload(2)) == [Site(2, 9, 0, 0x6E)]
  {
  }

  lemma TangledSites()
    ensures DexSites()(TangledDex()) == [Site(2, 9, 0, 0x6E), Site(1, 9, 0, 0x6E)]
  {
    hide *;
    var d := TangledDex();
    var a, b, c := Overload(0), Overload(1), Overload(2);
    TangledClasses();
    TangledCalls();
    TangledOrder();
    ClassSitesIs(d, [a, b, c]);
    FlattenOne([a, b, c], ClassSites(d));
    assert [a, c, b] == [a] + [c, b];
    FlattenAppend([a], [c, b], SitesIn(d));
    FlattenOne(a, SitesIn(d));
    FlattenTwo(c, b, SitesIn(d));
  }

  lemma TangledWanted()
    ensures Selected(TangledDex(), {9}, {Target})([Overload(0), Overload(1), Overload(2)]) == [Overload(1), Overload(2)]
  {
    var d := TangledDex();
    var a, b, c := Overload(0), Overload(1), Overload(2);
    var wanted := Wanted(d, {9}, {Target});
    assert Reason(d.calls(b)[0], {9}, {Target}) && Reason(d.calls(c)[0], {9}, {Target});
    assert !wanted(a) && wanted(b) && wanted(c);
    hide Wanted;
    assert [a, b, c] == [a] + [b, c];
    FilterCons(a, [b, c], wanted);
    FilterTwo(b, c, wanted);
  }

  lemma TangledScan()
    ensures DexScan({9}, {Target})(TangledDex()) == [Site(1, 9, 0, 0x6E), Site(2, 9, 0, 0x6E)]
  {
    hide *;
    var d := TangledDex();
    var a, b, c := Overload(0), Overload(1), Overload(2);
    TangledClasses();
    TangledCalls();
    TangledWanted();
    TangledOrder();
    DexScanIs(d, {9}, {Target});
    ClassSitesIs(d, [b, c]);
    FlattenOne([a, b, c], Then(Selected(d, {9}, {Target}), ClassSites(d)));
    ThenIs(Selected(d, {9}, {Target}), ClassSites(d), [a, b, c]);
    FlattenTwo(b, c, SitesIn(d));
  }
}
