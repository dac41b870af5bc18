/** The reference query as the program runs it: a selection over each DEX, then a scan of the
    selected methods that fills one page and at most twenty diagnostics. */
module ReferencePass {
  import opened Bytes
  import opened DexCursor
  import opened ClassData
  import opened DexSelection
  import opened Sorting
  import opened MethodOrder
  import opened MethodSelection
  import opened References

  const MAX_SITES := 20

  datatype Answer = Answer(items: seq<Hit>, total: nat, sites: seq<Site>, methods: nat, counters: Counters)

  function Least(a: nat, b: nat): nat {
    if a <= b then a else b
  }

  function Page<T>(xs: seq<T>, offset: nat, limit: nat): seq<T> {
    xs[Least(offset, |xs|)..Least(offset + limit, |xs|)]
  }

  function Merge(a: Part, b: Part): Part {
    Part(a.hits + b.hits, a.sites + b.sites, a.methods + b.methods, a.counters.Plus(b.counters))
  }

  const NOTHING := Part([], [], 0, Counters(0, 0, 0))

  /** One ordered pass over the first `n` inputs. */
  function Passes(inputs: seq<Input>, qn: Question, n: nat): Part
    requires n <= |inputs| && forall i :: 0 <= i < |inputs| ==> Asked(inputs[i], qn)
  {
    if n == 0 then NOTHING
    else Merge(Passes(inputs, qn, n - 1), OnePass(inputs[n - 1], SelectorOf(inputs[n - 1], qn), n - 1))
  }

  /** Selecting, sorting and scanning again, over the first `n` inputs. */
  function Rescans(inputs: seq<Input>, qn: Question, n: nat): Part
    requires n <= |inputs| && forall i :: 0 <= i < |inputs| ==> Asked(inputs[i], qn)
  {
    if n == 0 then NOTHING
    else
      Merge(Rescans(inputs, qn, n - 1),
            match TwoPasses(inputs[n - 1], SelectorOf(inputs[n - 1], qn), n - 1)
            case None => NOTHING
            case Some(part) => part)
  }

  ghost predicate Valid(input: Input, qn: Question) {
    Asked(input, qn) && Accepted(input, SelectorOf(input, qn))
  }

  ghost predicate AllValid(inputs: seq<Input>, qn: Question) {
    forall i :: 0 <= i < |inputs| ==> Valid(inputs[i], qn)
  }

  /** No class of any input is tangled in what the query shows of it. */
  ghost predicate AllStraight(inputs: seq<Input>, qn: Question) {
    forall i :: 0 <= i < |inputs| ==> Asked(inputs[i], qn) && Straight(inputs[i], SelectorOf(inputs[i], qn), i)
  }

  /** One page of the hits, and the first dynamic sites. */
  function AnswerOf(all: Part, qn: Question): Answer {
    Answer(Page(all.hits, qn.offset, qn.limit), |all.hits|, all.sites[..Least(MAX_SITES, |all.sites|)], all.methods,
           all.counters)
  }

  /** What a query asks for: one ordered pass over every instruction of every input, filtered. */
  ghost function Meaning(inputs: seq<Input>, qn: Question): Option<Answer>
    requires forall i :: 0 <= i < |inputs| ==> Asked(inputs[i], qn)
  {
    if AllValid(inputs, qn) then Some(AnswerOf(Passes(inputs, qn, |inputs|), qn)) else None
  }

  /** Two parts that count alike. */
  ghost predicate Alike(a: Part, b: Part) {
    a.methods == b.methods && a.counters == b.counters && |a.hits| == |b.hits| && |a.sites| == |b.sites|
  }

  /** Over valid inputs both ways count alike, and find the same when no class is tangled. */
  lemma {:induction false} RescansArePasses(inputs: seq<Input>, qn: Question, n: nat)
    requires n <= |inputs| && AllValid(inputs, qn)
    ensures Alike(Rescans(inputs, qn, n), Passes(inputs, qn, n))
    ensures AllStraight(inputs, qn) ==> Rescans(inputs, qn, n) == Passes(inputs, qn, n)
  {
    hide TwoPasses;
    hide OnePass;
    hide SelectorOf;
    hide Accepted;
    hide Straight;
    if n > 0 {
      var input := inputs[n - 1];
      RescansArePasses(inputs, qn, n - 1);
      assert Valid(input, qn);
      OneInput(input, qn, n - 1);
    }
  }

  lemma OneInput(input: Input, qn: Question, entry: nat)
    requires Valid(input, qn)
    ensures var two, one := TwoPasses(input, SelectorOf(input, qn), entry), OnePass(input, SelectorOf(input, qn), entry);
            two.Some? && Alike(two.value, one) && (Straight(input, SelectorOf(input, qn), entry) ==> two.value == one)
  {
    hide TwoPasses;
    hide OnePass;
    hide Accepted;
    hide Straight;
    TwoPassesAreOne(input, SelectorOf(input, qn), entry);
  }

  lemma PageAppend<T>(xs: seq<T>, x: T, offset: nat, limit: nat)
    ensures Page(xs + [x], offset, limit) ==
            Page(xs, offset, limit) + if offset <= |xs| < offset + limit then [x] else []
  {
  }

  lemma RowHitsAppend(data: seq<byte>, s: Selector, entry: nat, caller: nat, xs: seq<Row>, ys: seq<Row>)
    requires s.q.Valid()
    ensures RowHits(data, s, entry, caller, xs + ys) ==
            RowHits(data, s, entry, caller, xs) + RowHits(data, s, entry, caller, ys)
  {
    hide RowHit;
    if xs == [] {
      assert xs + ys == ys;
    } else {
      assert (xs + ys)[1..] == xs[1..] + ys;
      RowHitsAppend(data, s, entry, caller, xs[1..], ys);
    }
  }

  lemma RowSitesAppend(entry: nat, caller: nat, xs: seq<Row>, ys: seq<Row>)
    ensures RowSites(entry, caller, xs + ys) == RowSites(entry, caller, xs) + RowSites(entry, caller, ys)
  {
    if xs == [] {
      assert xs + ys == ys;
    } else {
      assert (xs + ys)[1..] == xs[1..] + ys;
      RowSitesAppend(entry, caller, xs[1..], ys);
    }
  }

  /** The page under construction. */
  class Collector {
    const offset: nat
    const limit: nat
    var items: seq<Hit>
    var total: nat
    var sites: seq<Site>
    ghost var hits: seq<Hit>
    ghost var dynamics: seq<Site>

    ghost predicate Valid()
      reads this
    {
      && items == Page(hits, offset, limit)
      && total == |hits|
      && sites == dynamics[..Least(MAX_SITES, |dynamics|)]
    }

    constructor (offset: nat, limit: nat)
      ensures Valid() && hits == [] && dynamics == [] && this.offset == offset && this.limit == limit
    {
      this.offset, this.limit := offset, limit;
      items, total, sites, hits, dynamics := [], 0, [], [], [];
    }

    method AddHit(hit: Hit)
      requires Valid()
      modifies this
      ensures Valid() && hits == old(hits) + [hit] && dynamics == old(dynamics)
    {
      PageAppend(hits, hit, offset, limit);
      if offset <= total < offset + limit {
        items := items + [hit];
      }
      total := total + 1;
      hits := hits + [hit];
    }

    method AddSite(site: Site)
      requires Valid()
      modifies this
      ensures Valid() && dynamics == old(dynamics) + [site] && hits == old(hits)
    {
      if |sites| < MAX_SITES {
        sites := sites + [site];
      }
      dynamics := dynamics + [site];
    }

    /** One emitted row: a hit, a dynamic site, both or neither. */
    method AddRow(data: seq<byte>, s: Selector, entry: nat, caller: nat, row: Row)
      requires Valid() && s.q.Valid()
      modifies this
      ensures Valid()
      ensures hits == old(hits) + RowHits(data, s, entry, caller, [row])
      ensures dynamics == old(dynamics) + RowSites(entry, caller, [row])
    {
      hide RowHit;
      if RowHit(data, s, row) && 0 <= row.opcode < 256 {
        RowHitReads(data, s, row);
        AddHit(Hit(entry, caller, U16(data, row.position + 2), row.address, row.opcode));
      }
      if Dynamic(row.opcode) {
        AddSite(Site(entry, caller, row.address, row.opcode));
      }
    }

    /** Scan one selected method again. */
    method ScanMethod(input: Input, s: Selector, entry: nat, m: Member) returns (ok: bool)
      requires Valid() && s.q.Valid()
      modifies this
      ensures m.code != 0 && NaiveScan(input.data, m.code, s.q).None? ==> !ok
      ensures !(m.code != 0 && NaiveScan(input.data, m.code, s.q).None?) ==>
                ok && Valid() && hits == old(hits) + RescanHits(input, s, entry)(m)
                && dynamics == old(dynamics) + RescanSites(input, s, entry)(m)
    {
      hide NaiveScan;
      if m.code == 0 {
        return true;
      }
      var scanned := Accelerated(input.data, m.code, s.q);
      if scanned.None? {
        return false;
      }
      AddRows(input.data, s, entry, m.index, scanned.value);
      return true;
    }

    method AddRows(data: seq<byte>, s: Selector, entry: nat, caller: nat, rows: seq<Row>)
      requires Valid() && s.q.Valid()
      modifies this
      ensures Valid()
      ensures hits == old(hits) + RowHits(data, s, entry, caller, rows)
      ensures dynamics == old(dynamics) + RowSites(entry, caller, rows)
    {
      hide RowHits;
      hide RowSites;
      hide Valid;
      NoRows(data, s, entry, caller);
      var i := 0;
      while i < |rows|
        invariant i <= |rows| && Valid()
        invariant hits == old(hits) + RowHits(data, s, entry, caller, rows[..i])
        invariant dynamics == old(dynamics) + RowSites(entry, caller, rows[..i])
      {
        assert rows[..i + 1] == rows[..i] + [rows[i]];
        RowHitsAppend(data, s, entry, caller, rows[..i], [rows[i]]);
        RowSitesAppend(entry, caller, rows[..i], [rows[i]]);
        AddRow(data, s, entry, caller, rows[i]);
        i := i + 1;
      }
      assert rows[..i] == rows;
    }

    /** Scan the selected methods of a class in order. */
    method ScanClass(input: Input, s: Selector, entry: nat, methods: seq<Member>) returns (ok: bool)
      requires Valid() && s.q.Valid()
      modifies this
      ensures ok == forall m :: m in Ordered(input.table, methods) && m.code != 0 ==> NaiveScan(input.data, m.code, s.q).Some?
      ensures ok ==> Valid()
                     && hits == old(hits) + Flatten(Ordered(input.table, methods), RescanHits(input, s, entry))
                     && dynamics == old(dynamics) + Flatten(Ordered(input.table, methods), RescanSites(input, s, entry))
    {
      hide NaiveScan;
      hide Valid;
      hide RescanHits;
      hide RescanSites;
      hide Ordered;
      var ordered := OrderMethods(input.table, methods);
      var i := 0;
      while i < |ordered|
        invariant i <= |ordered| && Valid()
        invariant forall m :: m in ordered[..i] && m.code != 0 ==> NaiveScan(input.data, m.code, s.q).Some?
        invariant hits == old(hits) + Flatten(ordered[..i], RescanHits(input, s, entry))
        invariant dynamics == old(dynamics) + Flatten(ordered[..i], RescanSites(input, s, entry))
      {
        FlattenStep(ordered, i, RescanHits(input, s, entry));
        FlattenStep(ordered, i, RescanSites(input, s, entry));
        var m := ordered[i];
        var scanned := ScanMethod(input, s, entry, m);
        if !scanned {
          assert m in ordered;
          return false;
        }
        assert ordered[..i + 1] == ordered[..i] + [m];
        i := i + 1;
      }
      assert ordered[..i] == ordered;
      return true;
    }
  }

  lemma NoRows(data: seq<byte>, s: Selector, entry: nat, caller: nat)
    requires s.q.Valid()
    ensures RowHits(data, s, entry, caller, []) == [] && RowSites(entry, caller, []) == []
  {
  }

  lemma RowHitReads(data: seq<byte>, s: Selector, row: Row)
    requires s.q.Valid() && RowHit(data, s, row)
    ensures row.position + 4 <= |data|
  {
  }

  /** Scan everything one selection chose, owners in sorted order. */
  method ScanChosen(page: Collector, input: Input, s: Selector, entry: nat, chosen: seq<(Name, seq<Member>)>)
    returns (ok: bool)
    requires page.Valid() && s.q.Valid()
    modifies page
    ensures (forall row, m :: row in SortedOwners(chosen) && m in Ordered(input.table, row.1) && m.code != 0 ==>
               NaiveScan(input.data, m.code, s.q).Some?) ==> ok
    ensures ok ==> page.Valid()
                   && page.hits == old(page.hits)
                                   + Flatten(SortedOwners(chosen), Inner(OrderOf(input), RescanHits(input, s, entry)))
                   && page.dynamics == old(page.dynamics)
                                       + Flatten(SortedOwners(chosen), Inner(OrderOf(input), RescanSites(input, s, entry)))
  {
    hide NaiveScan;
    hide RescanHits;
    hide RescanSites;
    hide Ordered;
    hide SortedOwners;
    hide Flatten;
    hide Collector.Valid;
    var sorted := SortedOwners(chosen);
    assert sorted[..0] == [];
    NothingFlat(Inner(OrderOf(input), RescanHits(input, s, entry)));
    NothingFlat(Inner(OrderOf(input), RescanSites(input, s, entry)));
    var i := 0;
    while i < |sorted|
      invariant i <= |sorted| && page.Valid()
      invariant page.hits == old(page.hits) + Flatten(sorted[..i], Inner(OrderOf(input), RescanHits(input, s, entry)))
      invariant page.dynamics == old(page.dynamics) + Flatten(sorted[..i], Inner(OrderOf(input), RescanSites(input, s, entry)))
    {
      FlattenStep(sorted, i, Inner(OrderOf(input), RescanHits(input, s, entry)));
      FlattenStep(sorted, i, Inner(OrderOf(input), RescanSites(input, s, entry)));
      assert sorted[i] in sorted;
      var scanned := page.ScanClass(input, s, entry, sorted[i].1);
      if !scanned {
        return false;
      }
      i := i + 1;
    }
    assert sorted[..i] == sorted;
    return true;
  }

  lemma NothingFlat<T, U>(f: T -> seq<U>)
    ensures Flatten([], f) == []
  {
  }

  /** Rows chosen by an accepted selection hold valid methods only, so scanning them again
      does not fail. */
  lemma ChosenScans(input: Input, s: Selector, entry: nat, row: (Name, seq<Member>), m: Member)
    requires Suits(input, s) && Accepted(input, s)
    requires row in SortedOwners(ChosenRows(input, s, input.classes)) && m in Ordered(input.table, row.1)
    ensures m.code != 0 ==> NaiveScan(input.data, m.code, s.q).Some?
  {
    hide NaiveScan;
    hide Walk;
    hide Ordered;
    var rows := ChosenRows(input, s, input.classes);
    SortSorts(KeyedOwners(rows));
    var x := RowOf(Sort(KeyedOwners(rows)), row);
    assert x in multiset(Sort(KeyedOwners(rows)));
    assert x in KeyedOwners(rows);
    KeyedOwnerMember(rows, x);
    var c := ChosenMember(input, s, input.classes, row);
    OrderedMember(input.table, row.1, m);
    FilterMember(MethodsOf(input, c.1), Kept(input, s), m);
    RescanIsExact(input, s, entry, m);
  }

  lemma {:induction false} KeyedOwnerMember(rows: seq<(Name, seq<Member>)>, x: Keyed<(Name, seq<Member>)>)
    requires x in KeyedOwners(rows)
    ensures x.row in rows
  {
    if x != Keyed(rows[0].0, rows[0]) {
      KeyedOwnerMember(rows[1..], x);
    }
  }

  lemma {:induction false} ChosenMember(input: Input, s: Selector, classes: seq<(Name, nat)>, row: (Name, seq<Member>))
    returns (c: (Name, nat))
    requires s.q.Valid() && row in ChosenRows(input, s, classes)
    ensures c in classes && row.1 == KeptOf(input, s, c.1)
  {
    hide KeptOf;
    var init, last := classes[..|classes| - 1], classes[|classes| - 1];
    assert classes == init + [last];
    if row in ChosenRows(input, s, init) {
      c := ChosenMember(input, s, init, row);
    } else {
      c := last;
    }
  }

  /** The whole query: for every DEX a selection, then a scan of what it kept. It rejects what one
      pass would reject, its totals and counts are those of one pass, and so is the whole answer
      when no class is tangled in what the query shows of it. */
  method FindReferences(inputs: seq<Input>, qn: Question) returns (r: Option<Answer>)
    requires forall i :: 0 <= i < |inputs| ==> Asked(inputs[i], qn)
    ensures r == if AllValid(inputs, qn) then Some(AnswerOf(Rescans(inputs, qn, |inputs|), qn)) else None
    ensures r.Some? <==> Meaning(inputs, qn).Some?
    ensures r.Some? ==>
              var meant := Meaning(inputs, qn).value;
              && r.value.total == meant.total && r.value.methods == meant.methods && r.value.counters == meant.counters
              && |r.value.items| == |meant.items| && |r.value.sites| == |meant.sites|
    ensures AllStraight(inputs, qn) ==> r == Meaning(inputs, qn)
  {
    hide Accepted;
    hide Straight;
    hide OnePass;
    hide TwoPasses;
    hide SelectDirectory;
    hide Page;
    var page := new Collector(qn.offset, qn.limit);
    var methods: nat, counters: Counters := 0, Counters(0, 0, 0);
    var i := 0;
    while i < |inputs|
      invariant i <= |inputs| && fresh(page) && page.Valid() && page.offset == qn.offset && page.limit == qn.limit
      invariant forall j :: 0 <= j < i ==> Valid(inputs[j], qn)
      invariant Rescans(inputs, qn, i) == Part(page.hits, page.dynamics, methods, counters)
    {
      var ok, m, c := ScanInput(page, inputs[i], qn, i);
      if !ok {
        assert !Valid(inputs[i], qn);
        return None;
      }
      methods, counters := methods + m, counters.Plus(c);
      i := i + 1;
    }
    RescansArePasses(inputs, qn, |inputs|);
    PageLength(page.hits, Passes(inputs, qn, |inputs|).hits, qn.offset, qn.limit);
    return Some(Answer(page.items, page.total, page.sites, methods, counters));
  }

  lemma PageLength<T>(xs: seq<T>, ys: seq<T>, offset: nat, limit: nat)
    requires |xs| == |ys|
    ensures |Page(xs, offset, limit)| == |Page(ys, offset, limit)|
  {
  }

  /** One DEX: select, then scan what was kept. */
  method ScanInput(page: Collector, input: Input, qn: Question, entry: nat)
    returns (ok: bool, methods: nat, counters: Counters)
    requires page.Valid() && Asked(input, qn)
    modifies page
    ensures ok == Accepted(input, SelectorOf(input, qn))
    ensures ok ==> page.Valid() && TwoPasses(input, SelectorOf(input, qn), entry).Some?
    ensures ok ==>
              var two := TwoPasses(input, SelectorOf(input, qn), entry).value;
              page.hits == old(page.hits) + two.hits && page.dynamics == old(page.dynamics) + two.sites
              && methods == two.methods && counters == two.counters
  {
    hide Accepted;
    hide SelectDirectory;
    hide NaiveScan;
    hide Ordered;
    hide SortedOwners;
    hide ChosenRows;
    var s := SelectorOf(input, qn);
    var scan := new ClassSelection(input.data, s);
    var chosen := scan.SelectClasses(input.classes);
    SelectDirectoryMeans(input, s, input.classes);
    AcceptedIsAll(input, s);
    if chosen.None? {
      return false, 0, Counters(0, 0, 0);
    }
    methods, counters := scan.methods, scan.Counted();
    forall row, m | row in SortedOwners(chosen.value) && m in Ordered(input.table, row.1) && m.code != 0
      ensures NaiveScan(input.data, m.code, s.q).Some?
    {
      ChosenScans(input, s, entry, row, m);
    }
    ok := ScanChosen(page, input, s, entry, chosen.value);
  }

  lemma AcceptedIsAll(input: Input, s: Selector)
    requires s.q.Valid()
    ensures Accepted(input, s) <==> AllAccepted(input, s, input.classes)
  {
  }
}
