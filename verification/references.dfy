/** Reference queries: one ordered pass over every instruction is what an answer means; the
    program selects methods first, sorts only those and scans them again. */
module References {
  import opened Bytes
  import opened DexCursor
  import opened ClassData
  import opened DexSelection
  import opened Sorting
  import opened MethodOrder
  import opened MethodSelection

  /** One DEX of the bundle with the wanted pool entries marked, its classes in file order. */
  datatype Input = Input(data: seq<byte>, version: nat, mask: seq<byte>, methodOffset: nat, strings: nat,
                         protos: nat, pools: Pools, classes: seq<(Name, nat)>, table: Table)

  datatype Question = Question(kind: Pool, access: Access, offset: nat, limit: nat)

  function SelectorOf(input: Input, qn: Question): Selector {
    Selector(Query(input.version, qn.kind, true, if qn.kind == FieldPool then input.pools.fields else input.pools.methods,
                   input.mask),
             qn.access, None, input.methodOffset, input.strings, input.protos, input.pools)
  }

  /** Member references only, and buffers of the sizes the C entry point demands. */
  predicate Asked(input: Input, qn: Question) {
    && (qn.kind == MethodPool || qn.kind == FieldPool)
    && SelectorOf(input, qn).Valid(input.data)
  }

  /** A reference site. Names are functions of the indices. */
  datatype Hit = Hit(entry: nat, caller: nat, target: nat, address: nat, opcode: byte)

  /** A call site whose run-time target is not in the bytecode. */
  datatype Site = Site(entry: nat, caller: nat, address: nat, opcode: byte)

  // ---------------------------------------------------------------------------------------
  // One pass
  // ---------------------------------------------------------------------------------------

  /** The instructions of one method, if the whole method is valid. */
  function Walk(data: seq<byte>, s: Selector, m: Member): (r: Option<seq<Instruction>>)
    requires s.q.Valid()
    ensures r.Some? ==> Walked(data, r.value) && OperandsInPool(data, s.q, r.value)
  {
    if !MethodInPools(data, s, m.index) then None
    else if m.code == 0 then Some([])
    else
      match CodeBounds(data, m.code)
      case None => None
      case Some((start, end)) =>
        match Instructions(data, start, start, end, s.q.version)
        case None => None
        case Some(walk) => if OperandsInPool(data, s.q, walk) then Some(walk) else None
  }

  predicate Allowed(s: Selector, op: int) {
    s.q.kind != FieldPool || s.access == All || s.access == if IsRead(op) then Reads else Writes
  }

  function Hits(data: seq<byte>, s: Selector, entry: nat, caller: nat, walk: seq<Instruction>): seq<Hit>
    requires s.q.Valid() && Walked(data, walk) && OperandsInPool(data, s.q, walk)
  {
    if walk == [] then []
    else
      var i := walk[0];
      (if Matches(data, s.q, i.position) && Allowed(s, i.opcode)
       then [Hit(entry, caller, Operand(data, s.q.kind, i.position), i.address, i.opcode)] else []) +
      Hits(data, s, entry, caller, walk[1..])
  }

  function Dynamics(entry: nat, caller: nat, walk: seq<Instruction>): seq<Site> {
    if walk == [] then []
    else
      (if Dynamic(walk[0].opcode) then [Site(entry, caller, walk[0].address, walk[0].opcode)] else []) +
      Dynamics(entry, caller, walk[1..])
  }

  // ---------------------------------------------------------------------------------------
  // Scanning a selected method again
  // ---------------------------------------------------------------------------------------

  /** The test of the second pass on one emitted row. */
  predicate RowHit(data: seq<byte>, s: Selector, row: Row)
    requires s.q.Valid()
  {
    && ReferenceOpcode(row.opcode, s.q.kind) && row.position + 4 <= |data|
    && U16(data, row.position + 2) < |s.q.mask| && s.q.mask[U16(data, row.position + 2)] != 0
    && Allowed(s, row.opcode)
  }

  function RowHits(data: seq<byte>, s: Selector, entry: nat, caller: nat, rows: seq<Row>): seq<Hit>
    requires s.q.Valid()
  {
    if rows == [] then []
    else
      var row := rows[0];
      (if RowHit(data, s, row) && 0 <= row.opcode < 256
       then [Hit(entry, caller, U16(data, row.position + 2), row.address, row.opcode)] else []) +
      RowHits(data, s, entry, caller, rows[1..])
  }

  function RowSites(entry: nat, caller: nat, rows: seq<Row>): seq<Site> {
    if rows == [] then []
    else
      (if Dynamic(rows[0].opcode) then [Site(entry, caller, rows[0].address, rows[0].opcode)] else []) +
      RowSites(entry, caller, rows[1..])
  }

  /** A row for one instruction passes the test exactly when the instruction is a hit. */
  lemma RowHitIsHit(data: seq<byte>, s: Selector, i: Instruction, count: nat)
    requires s.q.Valid() && s.q.incoming && (s.q.kind == MethodPool || s.q.kind == FieldPool)
    requires Fits(data, i.position) && i.opcode == data[i.position] && OperandInPool(data, s.q, i.position)
    ensures RowHit(data, s, Row(i.position, i.address, i.opcode, count)) <==>
            Matches(data, s.q, i.position) && Allowed(s, i.opcode)
    ensures Matches(data, s.q, i.position) ==>
              i.position + 4 <= |data| && U16(data, i.position + 2) == Operand(data, s.q.kind, i.position)
  {
  }

  /** Scanning a method again finds its hits and its dynamic sites. */
  lemma {:induction false} RescanIsWalk(data: seq<byte>, s: Selector, entry: nat, caller: nat, start: nat, end: nat,
                                        walk: seq<Instruction>, skipped: nat)
    requires s.q.Valid() && s.q.incoming && (s.q.kind == MethodPool || s.q.kind == FieldPool)
    requires start <= end && Walked(data, walk) && OperandsInPool(data, s.q, walk)
    ensures var rows := Emit(data, s.q, start, end, walk, skipped);
            && RowHits(data, s, entry, caller, rows) == Hits(data, s, entry, caller, walk)
            && RowSites(entry, caller, rows) == Dynamics(entry, caller, walk)
  {
    hide RowHit;
    hide Matches;
    hide Allowed;
    hide Fits;
    if walk == [] {
      ClosingRow(data, s, entry, caller, Row(end, (end - start) / 2, -1, skipped));
    } else {
      var i, rows := walk[0], Emit(data, s.q, start, end, walk, skipped);
      RowHitIsHit(data, s, i, skipped + 1);
      if Special(data, s.q, i.position) {
        RescanIsWalk(data, s, entry, caller, start, end, walk[1..], 0);
        assert rows[1..] == Emit(data, s.q, start, end, walk[1..], 0);
      } else {
        RescanIsWalk(data, s, entry, caller, start, end, walk[1..], skipped + 1);
      }
    }
  }

  lemma ClosingRow(data: seq<byte>, s: Selector, entry: nat, caller: nat, row: Row)
    requires s.q.Valid() && row.opcode == -1
    ensures RowHits(data, s, entry, caller, [row]) == [] && RowSites(entry, caller, [row]) == []
  {
  }

  /** A method the selection drops has neither hits nor dynamic sites. */
  lemma {:induction false} DroppedHasNothing(data: seq<byte>, s: Selector, entry: nat, caller: nat, walk: seq<Instruction>)
    requires s.q.Valid() && s.callers.None? && Walked(data, walk) && OperandsInPool(data, s.q, walk)
    requires !KeepsAny(data, s, walk)
    ensures Hits(data, s, entry, caller, walk) == [] && Dynamics(entry, caller, walk) == []
  {
    hide Matches;
    hide Keeps;
    hide Allowed;
    hide Fits;
    if walk != [] {
      HitKeeps(data, s, walk[0]);
      WalkSplits(data, s, walk);
      DroppedHasNothing(data, s, entry, caller, walk[1..]);
    }
  }

  lemma HitKeeps(data: seq<byte>, s: Selector, i: Instruction)
    requires s.q.Valid() && s.callers.None?
    requires Fits(data, i.position) && i.opcode == data[i.position] && OperandInPool(data, s.q, i.position)
    ensures (Matches(data, s.q, i.position) && Allowed(s, i.opcode)) || Dynamic(i.opcode) ==> Keeps(data, s, i.position)
  {
  }

  // ---------------------------------------------------------------------------------------
  // Both passes over one input
  // ---------------------------------------------------------------------------------------

  /** The methods of a class in file order. */
  function MethodsOf(input: Input, cls: nat): seq<Member> {
    match ClassMembers(input.data, cls, input.pools)
    case None => []
    case Some(members) => Methods(members)
  }

  ghost predicate ClassAccepted(input: Input, s: Selector, cls: nat)
    requires s.q.Valid()
  {
    && ClassMembers(input.data, cls, input.pools).Some?
    && forall m :: m in MethodsOf(input, cls) ==> Walk(input.data, s, m).Some?
  }

  /** Every class and every method of the input is valid. */
  ghost predicate Accepted(input: Input, s: Selector)
    requires s.q.Valid()
  {
    forall c :: c in input.classes ==> ClassAccepted(input, s, c.1)
  }

  function WalkOf(input: Input, s: Selector, m: Member): (r: seq<Instruction>)
    requires s.q.Valid()
    ensures Walked(input.data, r) && OperandsInPool(input.data, s.q, r)
  {
    match Walk(input.data, s, m)
    case None => []
    case Some(walk) => walk
  }

  function HitsOf(input: Input, s: Selector, entry: nat): Member -> seq<Hit>
    requires s.q.Valid()
  {
    (m: Member) => Hits(input.data, s, entry, m.index, WalkOf(input, s, m))
  }

  function DynamicsOf(input: Input, s: Selector, entry: nat): Member -> seq<Site>
    requires s.q.Valid()
  {
    (m: Member) => Dynamics(entry, m.index, WalkOf(input, s, m))
  }

  function KeyedClasses(classes: seq<(Name, nat)>): seq<Keyed<(Name, nat)>> {
    if classes == [] then [] else [Keyed(classes[0].0, classes[0])] + KeyedClasses(classes[1..])
  }

  function SortedClasses(classes: seq<(Name, nat)>): seq<(Name, nat)> {
    Rows(Sort(KeyedClasses(classes)))
  }

  function VisitsOf(input: Input): ((Name, nat)) -> seq<Member> {
    (c: (Name, nat)) => Ordered(input.table, MethodsOf(input, c.1))
  }

  /** The methods of an input in the order of one pass. */
  function Visits(input: Input): seq<Member> {
    Flatten(SortedClasses(input.classes), VisitsOf(input))
  }

  function CountInstructions(input: Input, s: Selector): Member -> nat
    requires s.q.Valid()
  {
    (m: Member) => |WalkOf(input, s, m)|
  }

  function CountDynamic(input: Input, s: Selector): Member -> nat
    requires s.q.Valid()
  {
    (m: Member) => DynamicCount(WalkOf(input, s, m))
  }

  function CountWithout(): Member -> nat {
    (m: Member) => if m.code == 0 then 1 else 0
  }

  /** What one input contributes to an answer. */
  datatype Part = Part(hits: seq<Hit>, sites: seq<Site>, methods: nat, counters: Counters)

  /** One ordered pass over every instruction of the input. */
  function OnePass(input: Input, s: Selector, entry: nat): Part
    requires s.q.Valid()
  {
    var visits := Visits(input);
    Part(Flatten(visits, HitsOf(input, s, entry)), Flatten(visits, DynamicsOf(input, s, entry)), |visits|,
         Counters(Weight(visits, CountInstructions(input, s)), |Flatten(visits, DynamicsOf(input, s, entry))|,
                  Weight(visits, CountWithout())))
  }

  function RescanHits(input: Input, s: Selector, entry: nat): Member -> seq<Hit>
    requires s.q.Valid()
  {
    (m: Member) =>
      if m.code == 0 then []
      else match NaiveScan(input.data, m.code, s.q)
           case None => []
           case Some(rows) => RowHits(input.data, s, entry, m.index, rows)
  }

  function RescanSites(input: Input, s: Selector, entry: nat): Member -> seq<Site>
    requires s.q.Valid()
  {
    (m: Member) =>
      if m.code == 0 then []
      else match NaiveScan(input.data, m.code, s.q)
           case None => []
           case Some(rows) => RowSites(entry, m.index, rows)
  }

  /** Scanning a valid method again gives its hits and sites. */
  lemma RescanIsExact(input: Input, s: Selector, entry: nat, m: Member)
    requires s.q.Valid() && s.q.incoming && (s.q.kind == MethodPool || s.q.kind == FieldPool)
    requires Walk(input.data, s, m).Some?
    ensures RescanHits(input, s, entry)(m) == HitsOf(input, s, entry)(m)
    ensures RescanSites(input, s, entry)(m) == DynamicsOf(input, s, entry)(m)
    ensures m.code != 0 ==> NaiveScan(input.data, m.code, s.q).Some?
  {
    hide Instructions;
    hide Emit;
    hide RowHits;
    hide OperandsInPool;
    if m.code != 0 {
      var (start, end) := CodeBounds(input.data, m.code).value;
      RescanIsWalk(input.data, s, entry, m.index, start, end, WalkOf(input, s, m), 0);
    }
  }

  /** Whether the selection keeps a method. */
  function Kept(input: Input, s: Selector): Member -> bool
    requires s.q.Valid()
  {
    (m: Member) => KeepsAny(input.data, s, WalkOf(input, s, m))
  }

  /** The selection of one method in terms of its walk. */
  lemma SelectIsWalk(input: Input, s: Selector, m: Member)
    requires s.q.Valid()
    ensures var walk := Walk(input.data, s, m);
            SelectCode(input.data, s, m.index, m.code) ==
            if walk.None? then None
            else Some(Found(Kept(input, s)(m), Counters(CountInstructions(input, s)(m), CountDynamic(input, s)(m),
                                                         CountWithout()(m))))
  {
    hide Instructions;
    hide Keeps;
  }

  // ----- What a selection amounts to -----

  function Totals(input: Input, s: Selector, methods: seq<Member>): Counters
    requires s.q.Valid()
  {
    Counters(Weight(methods, CountInstructions(input, s)), Weight(methods, CountDynamic(input, s)),
             Weight(methods, CountWithout()))
  }

  lemma TotalsAppend(input: Input, s: Selector, xs: seq<Member>, ys: seq<Member>)
    requires s.q.Valid()
    ensures Totals(input, s, xs + ys) == Totals(input, s, xs).Plus(Totals(input, s, ys))
  {
    hide CountInstructions;
    hide CountDynamic;
    hide CountWithout;
    hide Weight;
    WeightAppend(xs, ys, CountInstructions(input, s));
    WeightAppend(xs, ys, CountDynamic(input, s));
    WeightAppend(xs, ys, CountWithout());
  }

  lemma TotalsOne(input: Input, s: Selector, m: Member)
    requires s.q.Valid()
    ensures Totals(input, s, [m]) ==
            Counters(CountInstructions(input, s)(m), CountDynamic(input, s)(m), CountWithout()(m))
  {
    hide CountInstructions;
    hide CountDynamic;
    hide CountWithout;
    WeightOne(m, CountInstructions(input, s));
    WeightOne(m, CountDynamic(input, s));
    WeightOne(m, CountWithout());
  }

  /** `after` is `before` with the kept methods of a list and the totals over it added. */
  ghost predicate Adds(input: Input, s: Selector, before: Selection, methods: seq<Member>, after: Selection)
    requires s.q.Valid()
  {
    && after.selected == before.selected + Filter(methods, Kept(input, s))
    && after.methods == before.methods + |methods|
    && after.counters == before.counters.Plus(Totals(input, s, methods))
  }

  lemma AddsNothing(input: Input, s: Selector, so: Selection)
    requires s.q.Valid()
    ensures Adds(input, s, so, [], so)
  {
    assert so.selected + [] == so.selected;
  }

  lemma AddsOne(input: Input, s: Selector, before: Selection, methods: seq<Member>, so: Selection, m: Member, after: Selection)
    requires s.q.Valid() && s.callers.None? && m.group >= 2
    requires Adds(input, s, before, methods, so) && SelectMember(input.data, s, so, m) == Some(after)
    ensures Walk(input.data, s, m).Some? && Adds(input, s, before, methods + [m], after)
  {
    hide Walk;
    hide SelectCode;
    hide Totals;
    hide Kept;
    hide CountInstructions;
    hide CountDynamic;
    hide CountWithout;
    hide Filter;
    SelectIsWalk(input, s, m);
    TotalsAppend(input, s, methods, [m]);
    TotalsOne(input, s, m);
    FilterAppend(methods, [m], Kept(input, s));
    FilterOne(m, Kept(input, s));
    var kept := if Kept(input, s)(m) then [m] else [];
    assert before.selected + (Filter(methods, Kept(input, s)) + kept) == so.selected + kept;
  }

  /** Selecting over a member list accepts it when every method is valid, and adds it. */
  lemma {:induction false} SelectMembersMeans(input: Input, s: Selector, so: Selection, members: seq<Member>)
    requires s.q.Valid() && s.callers.None?
    ensures var r := SelectMembers(input.data, s, so, members);
            && (r.Some? <==> forall m :: m in Methods(members) ==> Walk(input.data, s, m).Some?)
            && (r.Some? ==> Adds(input, s, so, Methods(members), r.value))
  {
    hide Walk;
    hide SelectCode;
    hide Adds;
    hide SelectMember;
    if members == [] {
      AddsNothing(input, s, so);
    } else {
      var init, last := members[..|members| - 1], members[|members| - 1];
      SelectMembersMeans(input, s, so, init);
      var before := SelectMembers(input.data, s, so, init);
      assert forall m :: m in Methods(members) <==> m in Methods(init) || (m == last && last.group >= 2);
      assert Methods(init) + [] == Methods(init);
      if before.Some? {
        SelectMemberMeans(input, s, so, Methods(init), before.value, last);
      }
    }
  }

  lemma SelectMemberMeans(input: Input, s: Selector, before: Selection, methods: seq<Member>, so: Selection, m: Member)
    requires s.q.Valid() && s.callers.None? && Adds(input, s, before, methods, so)
    ensures var r := SelectMember(input.data, s, so, m);
            if m.group < 2 then r.Some? && Adds(input, s, before, methods, r.value)
            else (r.Some? <==> Walk(input.data, s, m).Some?) && (r.Some? ==> Adds(input, s, before, methods + [m], r.value))
  {
    hide Walk;
    hide SelectCode;
    SelectIsWalk(input, s, m);
    var r := SelectMember(input.data, s, so, m);
    if m.group >= 2 && r.Some? {
      AddsOne(input, s, before, methods, so, m, r.value);
    }
  }

  /** The kept methods of a class. */
  function KeptOf(input: Input, s: Selector, cls: nat): seq<Member>
    requires s.q.Valid()
  {
    Filter(MethodsOf(input, cls), Kept(input, s))
  }

  /** The owners with methods to revisit, in file order. */
  function ChosenRows(input: Input, s: Selector, classes: seq<(Name, nat)>): seq<(Name, seq<Member>)>
    requires s.q.Valid()
  {
    if classes == [] then []
    else
      ChosenRows(input, s, classes[..|classes| - 1]) +
      var (owner, cls) := classes[|classes| - 1];
      if KeptOf(input, s, cls) == [] then [] else [(owner, KeptOf(input, s, cls))]
  }

  /** All methods in file order. */
  function AllMethods(input: Input, classes: seq<(Name, nat)>): seq<Member> {
    if classes == [] then []
    else AllMethods(input, classes[..|classes| - 1]) + MethodsOf(input, classes[|classes| - 1].1)
  }

  ghost predicate AllAccepted(input: Input, s: Selector, classes: seq<(Name, nat)>)
    requires s.q.Valid()
  {
    forall c :: c in classes ==> ClassAccepted(input, s, c.1)
  }

  lemma SelectClassMeans(input: Input, s: Selector, so: Selection, cls: nat)
    requires s.q.Valid() && s.callers.None? && s.pools == input.pools
    ensures var r := SelectClass(input.data, s, so, cls);
            && (r.Some? <==> ClassAccepted(input, s, cls))
            && (r.Some? ==> Adds(input, s, so, MethodsOf(input, cls), r.value))
  {
    hide Walk;
    hide Adds;
    hide SelectMembers;
    hide ClassMembers;
    var members := ClassMembers(input.data, cls, input.pools);
    if members.Some? {
      SelectMembersMeans(input, s, so, members.value);
    }
  }

  /** Selecting over a directory accepts it when every class and method is valid; its rows and
      totals are then those of all methods in file order. */
  lemma {:induction false} SelectDirectoryMeans(input: Input, s: Selector, classes: seq<(Name, nat)>)
    requires s.q.Valid() && s.callers.None? && s.pools == input.pools
    ensures var r := SelectDirectory(input.data, s, classes);
            && (r.Some? <==> AllAccepted(input, s, classes))
            && (r.Some? ==>
                  && r.value.rows == ChosenRows(input, s, classes)
                  && r.value.methods == |AllMethods(input, classes)|
                  && r.value.counters == Totals(input, s, AllMethods(input, classes)))
  {
    hide ClassAccepted;
    hide SelectClass;
    hide Totals;
    hide Filter;
    hide MethodsOf;
    if classes == [] {
      TotalsNothing(input, s);
    } else {
      var init, last := classes[..|classes| - 1], classes[|classes| - 1];
      assert classes == init + [last];
      SelectDirectoryMeans(input, s, init);
      var before := SelectDirectory(input.data, s, init);
      if before.Some? {
        var so := Selection([], before.value.definitions, before.value.methods, before.value.counters);
        SelectClassMeans(input, s, so, last.1);
        TotalsAppend(input, s, AllMethods(input, init), MethodsOf(input, last.1));
        assert [] + KeptOf(input, s, last.1) == KeptOf(input, s, last.1);
      }
    }
  }

  lemma TotalsNothing(input: Input, s: Selector)
    requires s.q.Valid()
    ensures Totals(input, s, []) == Counters(0, 0, 0)
  {
  }

  // ----- The second pass -----

  function KeyedOwners(rows: seq<(Name, seq<Member>)>): seq<Keyed<(Name, seq<Member>)>> {
    if rows == [] then [] else [Keyed(rows[0].0, rows[0])] + KeyedOwners(rows[1..])
  }

  function SortedOwners(rows: seq<(Name, seq<Member>)>): seq<(Name, seq<Member>)> {
    Rows(Sort(KeyedOwners(rows)))
  }

  function OrderOf(input: Input): ((Name, seq<Member>)) -> seq<Member> {
    (row: (Name, seq<Member>)) => Ordered(input.table, row.1)
  }

  /** Select in file order, sort what was selected, scan it again. */
  function TwoPasses(input: Input, s: Selector, entry: nat): Option<Part>
    requires s.q.Valid()
  {
    match SelectDirectory(input.data, s, input.classes)
    case None => None
    case Some(chosen) =>
      var rows := SortedOwners(chosen.rows);
      Some(Part(Flatten(rows, Inner(OrderOf(input), RescanHits(input, s, entry))),
                Flatten(rows, Inner(OrderOf(input), RescanSites(input, s, entry))),
                chosen.methods, chosen.counters))
  }

  function KeptRow(input: Input, s: Selector): ((Name, nat)) -> (Name, seq<Member>)
    requires s.q.Valid()
  {
    (c: (Name, nat)) => (c.0, KeptOf(input, s, c.1))
  }

  function NonEmpty(): ((Name, seq<Member>)) -> bool {
    (row: (Name, seq<Member>)) => row.1 != []
  }

  lemma {:induction false} KeyedOwnersAppend(xs: seq<(Name, seq<Member>)>, ys: seq<(Name, seq<Member>)>)
    ensures KeyedOwners(xs + ys) == KeyedOwners(xs) + KeyedOwners(ys)
  {
    if xs == [] {
      assert xs + ys == ys;
    } else {
      assert (xs + ys)[1..] == xs[1..] + ys;
      KeyedOwnersAppend(xs[1..], ys);
    }
  }

  lemma {:induction false} KeyedClassesAppend(xs: seq<(Name, nat)>, ys: seq<(Name, nat)>)
    ensures KeyedClasses(xs + ys) == KeyedClasses(xs) + KeyedClasses(ys)
  {
    if xs == [] {
      assert xs + ys == ys;
    } else {
      assert (xs + ys)[1..] == xs[1..] + ys;
      KeyedClassesAppend(xs[1..], ys);
    }
  }

  /** The chosen rows are the classes with their kept methods, empty ones left out. */
  lemma {:induction false} ChosenIsFiltered(input: Input, s: Selector, classes: seq<(Name, nat)>)
    requires s.q.Valid()
    ensures KeyedOwners(ChosenRows(input, s, classes)) ==
            Filter(MapRows(KeyedClasses(classes), KeptRow(input, s)), OnRow(NonEmpty()))
  {
    hide KeptOf;
    if classes != [] {
      var init, last := classes[..|classes| - 1], classes[|classes| - 1];
      var kept := KeptRow(input, s)(last);
      assert classes == init + [last];
      ChosenIsFiltered(input, s, init);
      KeyedClassesAppend(init, [last]);
      assert KeyedClasses([last]) == [Keyed(last.0, last)];
      MapAppend(KeyedClasses(init), [Keyed(last.0, last)], KeptRow(input, s));
      assert MapRows([Keyed(last.0, last)], KeptRow(input, s)) == [Keyed(last.0, kept)];
      FilterAppend(MapRows(KeyedClasses(init), KeptRow(input, s)), [Keyed(last.0, kept)], OnRow(NonEmpty()));
      FilterOne(Keyed(last.0, kept), OnRow(NonEmpty()));
      KeyedOwnersAppend(ChosenRows(input, s, init), if kept.1 == [] then [] else [kept]);
      assert KeyedOwners([kept]) == [Keyed(last.0, kept)];
    }
  }

  /** Sorting the chosen rows and flattening them visits the classes in sorted order. */
  lemma SortedChosen<U>(input: Input, s: Selector, classes: seq<(Name, nat)>, g: ((Name, seq<Member>)) -> seq<U>)
    requires s.q.Valid()
    requires forall row: (Name, seq<Member>) :: row.1 == [] ==> g(row) == []
    ensures Flatten(SortedOwners(ChosenRows(input, s, classes)), g) ==
            Flatten(SortedClasses(classes), Then(KeptRow(input, s), g))
  {
    ChosenIsFiltered(input, s, classes);
    SortedSelection(KeyedClasses(classes), KeptRow(input, s), NonEmpty(), g);
  }

  /** The selector of a member reference query over this input. */
  ghost predicate Suits(input: Input, s: Selector) {
    && s.q.Valid() && s.q.incoming && (s.q.kind == MethodPool || s.q.kind == FieldPool)
    && s.callers.None? && s.pools == input.pools
  }

  /** Scanning the kept methods of a class in order finds as much as walking all of them, and the
      same in the same order, if and only if no two methods with something to show change places. */
  lemma ClassScansExactly<U>(input: Input, s: Selector, cls: nat, rescan: Member -> seq<U>, walk: Member -> seq<U>)
    requires Suits(input, s) && Distinguishes(MethodsOf(input, cls), walk)
    requires forall m :: m in MethodsOf(input, cls) ==> rescan(m) == walk(m)
    requires forall m :: m in MethodsOf(input, cls) && !Kept(input, s)(m) ==> walk(m) == []
    ensures var few := Flatten(Ordered(input.table, KeptOf(input, s, cls)), rescan);
            var all := Flatten(Ordered(input.table, MethodsOf(input, cls)), walk);
            && |few| == |all|
            && (few == all <==> !Reorders(input.table, MethodsOf(input, cls), Kept(input, s), Shows(walk)))
  {
    var methods, kept := MethodsOf(input, cls), Kept(input, s);
    assert KeptOf(input, s, cls) == Filter(methods, kept);
    hide *;
    forall m | m in Ordered(input.table, Filter(methods, kept))
      ensures rescan(m) == walk(m)
    {
      OrderedMember(input.table, Filter(methods, kept), m);
      FilterMember(methods, kept, m);
    }
    FlattenSame(Ordered(input.table, Filter(methods, kept)), rescan, walk);
    SelectedLength(input.table, methods, kept, walk);
    ShownAlike(input.table, methods, kept, walk);
  }

  lemma SortedClassesMember(classes: seq<(Name, nat)>, c: (Name, nat))
    ensures c in SortedClasses(classes) <==> c in classes
  {
    var keyed := KeyedClasses(classes);
    SortSorts(keyed);
    KeyedClassRows(classes);
    RowsMember(keyed, Sort(keyed), c);
  }

  /** Two methods of some class that have something to show change places when only the kept ones
      are ordered. */
  ghost predicate Tangles<U>(input: Input, s: Selector, walk: Member -> seq<U>)
    requires s.q.Valid()
  {
    exists c :: c in input.classes && Reorders(input.table, MethodsOf(input, c.1), Kept(input, s), Shows(walk))
  }

  /** What a per-method list is when gathered by the second pass, and by one pass: as long, and the
      same exactly when no class is tangled in what it shows. */
  lemma GatheredExactly<U>(input: Input, s: Selector, rescan: Member -> seq<U>, walk: Member -> seq<U>)
    requires Suits(input, s) && Accepted(input, s)
    requires forall c :: c in input.classes ==> Distinguishes(MethodsOf(input, c.1), walk)
    requires forall m :: Walk(input.data, s, m).Some? ==> rescan(m) == walk(m)
    requires forall m :: Walk(input.data, s, m).Some? && !Kept(input, s)(m) ==> walk(m) == []
    ensures var two := Flatten(SortedOwners(ChosenRows(input, s, input.classes)), Inner(OrderOf(input), rescan));
            var one := Flatten(Visits(input), walk);
            |two| == |one| && (two == one <==> !Tangles(input, s, walk))
  {
    hide Kept;
    hide Ordered;
    hide MethodsOf;
    hide Walk;
    hide KeptOf;
    hide Reorders;
    hide Distinguishes;
    var sorted := SortedClasses(input.classes);
    var g := Inner(OrderOf(input), rescan);
    forall row: (Name, seq<Member>) | row.1 == []
      ensures g(row) == []
    {
      OrderedNothing(input.table);
      assert OrderOf(input)(row) == [];
    }
    SortedChosen(input, s, input.classes, g);
    FlattenTwice(sorted, VisitsOf(input), walk);
    var few, all := Then(KeptRow(input, s), g), Inner(VisitsOf(input), walk);
    forall c
      ensures c in sorted <==> c in input.classes
      ensures c in sorted ==> |few(c)| == |all(c)|
      ensures c in sorted ==>
                (few(c) == all(c) <==> !Reorders(input.table, MethodsOf(input, c.1), Kept(input, s), Shows(walk)))
    {
      SortedClassesMember(input.classes, c);
      if c in input.classes {
        assert ClassAccepted(input, s, c.1);
        ClassScansExactly(input, s, c.1, rescan, walk);
      }
    }
    FlattenPieces(sorted, few, all);
    FlattenPiecesLength(sorted, few, all);
  }

  lemma OrderedNothing(t: Table)
    ensures Ordered(t, []) == []
  {
  }

  lemma DroppedMethod(input: Input, s: Selector, entry: nat, m: Member)
    requires Suits(input, s) && !Kept(input, s)(m)
    ensures HitsOf(input, s, entry)(m) == [] && DynamicsOf(input, s, entry)(m) == []
  {
    hide Walk;
    DroppedHasNothing(input.data, s, entry, m.index, WalkOf(input, s, m));
  }

  /** Sums over all methods are the same in both orders. */
  lemma VisitsWeigh(input: Input, w: Member -> nat)
    ensures Weight(Visits(input), w) == Weight(AllMethods(input, input.classes), w)
  {
    hide Ordered;
    hide MethodsOf;
    var sorted := SortedClasses(input.classes);
    WeightFlatten(sorted, VisitsOf(input), w);
    forall c | c in sorted
      ensures WeightIn(VisitsOf(input), w)(c) == ClassWeight(input, w)(c)
    {
      OrderedWeighs(input.table, MethodsOf(input, c.1), w);
    }
    WeightSame(sorted, WeightIn(VisitsOf(input), w), ClassWeight(input, w));
    SortWeight(KeyedClasses(input.classes), ClassWeight(input, w));
    KeyedClassRows(input.classes);
    AllMethodsWeigh(input, input.classes, w);
  }

  function ClassWeight(input: Input, w: Member -> nat): ((Name, nat)) -> nat {
    (c: (Name, nat)) => Weight(MethodsOf(input, c.1), w)
  }

  lemma {:induction false} KeyedClassRows(classes: seq<(Name, nat)>)
    ensures Rows(KeyedClasses(classes)) == classes
  {
    if classes != [] {
      KeyedClassRows(classes[1..]);
      assert KeyedClasses(classes)[1..] == KeyedClasses(classes[1..]);
    }
  }

  lemma {:induction false} AllMethodsWeigh(input: Input, classes: seq<(Name, nat)>, w: Member -> nat)
    ensures Weight(AllMethods(input, classes), w) == Weight(classes, ClassWeight(input, w))
  {
    hide MethodsOf;
    if classes != [] {
      var init, last := classes[..|classes| - 1], classes[|classes| - 1];
      assert classes == init + [last];
      AllMethodsWeigh(input, init, w);
      WeightAppend(AllMethods(input, init), MethodsOf(input, last.1), w);
      WeightAppend(init, [last], ClassWeight(input, w));
      WeightOne(last, ClassWeight(input, w));
    }
  }

  lemma {:induction false} DynamicsCounted(input: Input, s: Selector, entry: nat, methods: seq<Member>)
    requires s.q.Valid()
    ensures |Flatten(methods, DynamicsOf(input, s, entry))| == Weight(methods, CountDynamic(input, s))
  {
    hide Walk;
    if methods != [] {
      DynamicsCounted(input, s, entry, methods[1..]);
      DynamicsLength(entry, methods[0].index, WalkOf(input, s, methods[0]));
    }
  }

  lemma {:induction false} DynamicsLength(entry: nat, caller: nat, walk: seq<Instruction>)
    ensures |Dynamics(entry, caller, walk)| == DynamicCount(walk)
  {
    if walk != [] {
      DynamicsLength(entry, caller, walk[1..]);
    }
  }

  /** The methods of a class have indices of their own. */
  lemma MethodsApart(input: Input, cls: nat)
    ensures forall x, y :: x in MethodsOf(input, cls) && y in MethodsOf(input, cls) && x.index == y.index ==> x == y
  {
    hide MembersFrom;
    hide Counts;
    var read := ClassMembers(input.data, cls, input.pools);
    if read.Some? {
      ClassMembersDistinct(input.data, cls, input.pools);
      forall x, y | x in MethodsOf(input, cls) && y in MethodsOf(input, cls) && x.index == y.index
        ensures x == y
      {
        MethodsAreMembers(read.value, x);
        MethodsAreMembers(read.value, y);
      }
    }
  }

  lemma ClassMembersDistinct(data: seq<byte>, cls: nat, pools: Pools)
    ensures var r := ClassMembers(data, cls, pools); r.Some? ==> Distinct(r.value)
  {
    hide MembersFrom;
    if cls + 32 <= |data| && Counts(data, U32(data, cls + 24), 4).Some? {
      var (sizes, next) := Counts(data, U32(data, cls + 24), 4).value;
      MembersAreDistinct(data, next, sizes, 0, 0, 0, {}, pools);
    }
  }

  lemma {:induction false} MethodsAreMembers(members: seq<Member>, m: Member)
    ensures m in Methods(members) <==> m in members && m.group >= 2
  {
    if members != [] {
      var init, last := members[..|members| - 1], members[|members| - 1];
      assert members == init + [last];
      MethodsAreMembers(init, m);
    }
  }

  lemma {:induction false} FirstHit(data: seq<byte>, s: Selector, entry: nat, caller: nat, walk: seq<Instruction>)
    requires s.q.Valid() && Walked(data, walk) && OperandsInPool(data, s.q, walk)
    ensures var hits := Hits(data, s, entry, caller, walk); hits != [] ==> hits[0].caller == caller
  {
    hide Matches;
    hide Allowed;
    hide Fits;
    if walk != [] {
      FirstHit(data, s, entry, caller, walk[1..]);
    }
  }

  lemma {:induction false} FirstSite(entry: nat, caller: nat, walk: seq<Instruction>)
    ensures var sites := Dynamics(entry, caller, walk); sites != [] ==> sites[0].caller == caller
  {
    if walk != [] {
      FirstSite(entry, caller, walk[1..]);
    }
  }

  /** Hits and dynamic sites name their method. */
  lemma FindsDistinguish(input: Input, s: Selector, entry: nat, cls: nat)
    requires s.q.Valid()
    ensures Distinguishes(MethodsOf(input, cls), HitsOf(input, s, entry))
    ensures Distinguishes(MethodsOf(input, cls), DynamicsOf(input, s, entry))
  {
    hide MethodsOf;
    hide Hits;
    hide Dynamics;
    hide WalkOf;
    MethodsApart(input, cls);
    forall m: Member
      ensures var hits := HitsOf(input, s, entry)(m); hits != [] ==> hits[0].caller == m.index
      ensures var sites := DynamicsOf(input, s, entry)(m); sites != [] ==> sites[0].caller == m.index
    {
      FirstHit(input.data, s, entry, m.index, WalkOf(input, s, m));
      FirstSite(entry, m.index, WalkOf(input, s, m));
    }
  }

  /** No class is tangled in what it shows: neither in hits nor in dynamic sites. */
  ghost predicate Straight(input: Input, s: Selector, entry: nat)
    requires s.q.Valid()
  {
    !Tangles(input, s, HitsOf(input, s, entry)) && !Tangles(input, s, DynamicsOf(input, s, entry))
  }

  /** The main result for one input. Selecting in file order, sorting only the selection and
      scanning it again rejects what one ordered pass over every instruction rejects, and counts
      the same methods, instructions, hits and dynamic sites. It gives the same answer if and only
      if no two methods with hits, and no two with dynamic sites, change places. */
  lemma TwoPassesAreOne(input: Input, s: Selector, entry: nat)
    requires Suits(input, s)
    ensures TwoPasses(input, s, entry).Some? <==> Accepted(input, s)
    ensures Accepted(input, s) ==>
              var two, one := TwoPasses(input, s, entry).value, OnePass(input, s, entry);
              && two.methods == one.methods && two.counters == one.counters
              && |two.hits| == |one.hits| && |two.sites| == |one.sites|
              && (two.hits == one.hits <==> !Tangles(input, s, HitsOf(input, s, entry)))
              && (two.sites == one.sites <==> !Tangles(input, s, DynamicsOf(input, s, entry)))
    ensures Accepted(input, s) ==>
              (TwoPasses(input, s, entry) == Some(OnePass(input, s, entry)) <==> Straight(input, s, entry))
  {
    hide Walk;
    hide Visits;
    hide Tangles;
    hide Distinguishes;
    hide HitsOf;
    hide DynamicsOf;
    hide RescanHits;
    hide RescanSites;
    hide Weight;
    SelectDirectoryMeans(input, s, input.classes);
    if Accepted(input, s) {
      forall m | Walk(input.data, s, m).Some?
        ensures RescanHits(input, s, entry)(m) == HitsOf(input, s, entry)(m)
        ensures RescanSites(input, s, entry)(m) == DynamicsOf(input, s, entry)(m)
      {
        RescanIsExact(input, s, entry, m);
      }
      forall m | !Kept(input, s)(m)
        ensures HitsOf(input, s, entry)(m) == [] && DynamicsOf(input, s, entry)(m) == []
      {
        DroppedMethod(input, s, entry, m);
      }
      forall c | c in input.classes
        ensures Distinguishes(MethodsOf(input, c.1), HitsOf(input, s, entry))
        ensures Distinguishes(MethodsOf(input, c.1), DynamicsOf(input, s, entry))
      {
        FindsDistinguish(input, s, entry, c.1);
      }
      GatheredExactly(input, s, RescanHits(input, s, entry), HitsOf(input, s, entry));
      GatheredExactly(input, s, RescanSites(input, s, entry), DynamicsOf(input, s, entry));
      VisitsWeigh(input, CountInstructions(input, s));
      VisitsWeigh(input, CountDynamic(input, s));
      VisitsWeigh(input, CountWithout());
      VisitsWeigh(input, One());
      WeightOfOnes(Visits(input));
      WeightOfOnes(AllMethods(input, input.classes));
      DynamicsCounted(input, s, entry, Visits(input));
    }
  }

  /** No class uses two name indices of one text in alternation. */
  ghost predicate Untangled(input: Input) {
    forall c :: c in input.classes ==> TiesDoNotAlternate(input.table, MethodsOf(input, c.1))
  }

  /** Without alternation no query is affected. */
  lemma UntangledIsStraight(input: Input, s: Selector, entry: nat)
    requires Suits(input, s) && Untangled(input)
    ensures Straight(input, s, entry)
  {
    hide Kept;
    hide Walk;
    hide TiesDoNotAlternate;
    hide Reorders;
    hide MethodsOf;
    forall m | !Kept(input, s)(m)
      ensures HitsOf(input, s, entry)(m) == [] && DynamicsOf(input, s, entry)(m) == []
    {
      DroppedMethod(input, s, entry, m);
    }
    hide HitsOf;
    hide DynamicsOf;
    forall c | c in input.classes
      ensures !Reorders(input.table, MethodsOf(input, c.1), Kept(input, s), Shows(HitsOf(input, s, entry)))
      ensures !Reorders(input.table, MethodsOf(input, c.1), Kept(input, s), Shows(DynamicsOf(input, s, entry)))
    {
      NeverReorders(input.table, MethodsOf(input, c.1), Kept(input, s), Shows(HitsOf(input, s, entry)));
      NeverReorders(input.table, MethodsOf(input, c.1), Kept(input, s), Shows(DynamicsOf(input, s, entry)));
    }
  }
}
