/** Reference rows gathered into runs of one caller, under a byte budget that is exact. */
module ReferenceGroupings {
  import opened Bytes
  import opened JsonText

  type Row = Fields

  /** What keeps rows in one group. */
  datatype Identity = Identity(entry: Json, caller: Json, targetField: string, unit: Option<Json>)

  datatype Group = Group(identity: Identity, matches: seq<Json>, evidence: seq<Fields>)

  // ---------------------------------------------------------------------------------------
  // Rows
  // ---------------------------------------------------------------------------------------

  const TARGET_FIELDS := ["callee", "field_descriptor", "value", "type_descriptor"]

  function FirstField(row: Row, names: seq<string>): Option<string> {
    if names == [] then None
    else if Get(row, names[0]).Some? then Some(names[0]) else FirstField(row, names[1..])
  }

  /** A row of a reference answer: a dictionary with its caller, its entry and a target. */
  ghost predicate IsRow(row: Row) {
    && DistinctKeys(row)
    && Get(row, "dex_entry").Some? && Get(row, "caller").Some? && Get(row, "target_index") == None
    && FirstField(row, TARGET_FIELDS).Some?
  }

  function TargetField(row: Row): string {
    match FirstField(row, TARGET_FIELDS)
    case Some(name) => name
    case None => ""
  }

  function Value(row: Row, key: string): Json {
    match Get(row, key)
    case Some(value) => value
    case None => Null
  }

  function IdentityOf(row: Row): Identity {
    Identity(Value(row, "dex_entry"), Value(row, "caller"), TargetField(row), Get(row, "offset_unit"))
  }

  function Target(row: Row): Json {
    Value(row, TargetField(row))
  }

  /** What a row keeps of its own, with the place of its target among the group's matches. */
  function Evidence(row: Row, index: nat): Fields {
    Put(Without(row, {"dex_entry", "caller", TargetField(row), "offset_unit"}), "target_index", Num(index))
  }

  function IndexOf(matches: seq<Json>, target: Json): (r: nat)
    ensures r <= |matches|
    ensures r < |matches| <==> target in matches
    ensures r < |matches| ==> matches[r] == target
  {
    if matches == [] || matches[0] == target then 0 else 1 + IndexOf(matches[1..], target)
  }

  // ---------------------------------------------------------------------------------------
  // Grouping
  // ---------------------------------------------------------------------------------------

  function NewGroup(row: Row): Group {
    Group(IdentityOf(row), [Target(row)], [Evidence(row, 0)])
  }

  function Extended(group: Group, row: Row): Group {
    var target := Target(row);
    group.(matches := if target in group.matches then group.matches else group.matches + [target],
           evidence := group.evidence + [Evidence(row, IndexOf(group.matches, target))])
  }

  predicate Continues(groups: seq<Group>, row: Row) {
    groups != [] && groups[|groups| - 1].identity == IdentityOf(row)
  }

  function AddRow(groups: seq<Group>, row: Row): (r: seq<Group>)
    ensures r != []
  {
    if Continues(groups, row) then groups[..|groups| - 1] + [Extended(groups[|groups| - 1], row)]
    else groups + [NewGroup(row)]
  }

  /** The groups of a whole stream of rows. */
  function GroupsOf(rows: seq<Row>): (r: seq<Group>)
    ensures r == [] <==> rows == []
  {
    if rows == [] then [] else AddRow(GroupsOf(rows[..|rows| - 1]), rows[|rows| - 1])
  }

  lemma GroupsAppend(rows: seq<Row>, row: Row)
    ensures GroupsOf(rows + [row]) == AddRow(GroupsOf(rows), row)
  {
    assert (rows + [row])[..|rows|] == rows;
  }

  // ---------------------------------------------------------------------------------------
  // The encoded groups
  // ---------------------------------------------------------------------------------------

  function Objects(evidence: seq<Fields>): (r: seq<Json>)
    ensures |r| == |evidence|
  {
    seq(|evidence|, i requires 0 <= i < |evidence| => Obj(evidence[i]))
  }

  function GroupFields(group: Group): Fields {
    [Field("dex_entry", group.identity.entry), Field("caller", group.identity.caller),
     Field("target_field", Str(Codes(group.identity.targetField))), Field("matches", Arr(group.matches)),
     Field("evidence", Arr(Objects(group.evidence)))] +
    match group.identity.unit
    case Some(unit) => [Field("offset_unit", unit)]
    case None => []
  }

  function Encoded(groups: seq<Group>): (r: seq<Json>)
    ensures |r| == |groups|
  {
    seq(|groups|, i requires 0 <= i < |groups| => Obj(GroupFields(groups[i])))
  }

  function GroupsJson(groups: seq<Group>): Json {
    Arr(Encoded(groups))
  }

  /** What one more row adds to the encoded groups. */
  function Extra(groups: seq<Group>, row: Row): nat {
    if Continues(groups, row) then
      var group := groups[|groups| - 1];
      var target := Target(row);
      Size(Obj(Evidence(row, IndexOf(group.matches, target)))) + 2 +
      if target in group.matches then 0 else Size(target) + 2
    else Size(Obj(GroupFields(NewGroup(row)))) + if groups == [] then 0 else 2
  }

  lemma MatchesSize(matches: seq<Json>, target: Json)
    requires matches != []
    ensures Size(Arr(if target in matches then matches else matches + [target])) ==
            Size(Arr(matches)) + if target in matches then 0 else Size(target) + 2
  {
    hide Size;
    ArrAppend(matches, target);
  }

  lemma EvidenceSize(evidence: seq<Fields>, more: Fields)
    requires evidence != []
    ensures Size(Arr(Objects(evidence + [more]))) == Size(Arr(Objects(evidence))) + Size(Obj(more)) + 2
  {
    hide Size;
    ArrAppend(Objects(evidence), Obj(more));
    assert Objects(evidence + [more]) == Objects(evidence) + [Obj(more)];
  }

  lemma GroupSize(group: Group, matches: seq<Json>, evidence: seq<Fields>)
    ensures Size(Obj(GroupFields(Group(group.identity, matches, evidence)))) ==
            Size(Obj(GroupFields(group))) + Size(Arr(matches)) - Size(Arr(group.matches))
            + Size(Arr(Objects(evidence))) - Size(Arr(Objects(group.evidence)))
  {
    hide Size, Objects;
    var fields := GroupFields(group);
    var middle := fields[3 := Field("matches", Arr(matches))];
    ObjReplace(fields, 3, Arr(matches));
    ObjReplace(middle, 4, Arr(Objects(evidence)));
    assert GroupFields(Group(group.identity, matches, evidence)) == middle[4 := Field("evidence", Arr(Objects(evidence)))];
  }

  lemma ExtendedSize(group: Group, row: Row)
    requires group.matches != [] && group.evidence != []
    ensures Size(Obj(GroupFields(Extended(group, row)))) == Size(Obj(GroupFields(group))) +
            Size(Obj(Evidence(row, IndexOf(group.matches, Target(row))))) + 2 +
            if Target(row) in group.matches then 0 else Size(Target(row)) + 2
  {
    hide Size, GroupFields, Evidence, Target, Objects;
    var after := Extended(group, row);
    GroupSize(group, after.matches, after.evidence);
    MatchesSize(group.matches, Target(row));
    EvidenceSize(group.evidence, Evidence(row, IndexOf(group.matches, Target(row))));
  }

  /** The account is exact: one more row adds its extra bytes, no more and no less. */
  lemma AddRowSize(groups: seq<Group>, row: Row)
    requires forall i :: 0 <= i < |groups| ==> groups[i].matches != [] && groups[i].evidence != []
    ensures Size(GroupsJson(AddRow(groups, row))) == Size(GroupsJson(groups)) + Extra(groups, row)
  {
    hide Size, GroupFields, Evidence, Target, Objects, Extended, NewGroup;
    if Continues(groups, row) {
      var last := groups[|groups| - 1];
      ExtendedSize(last, row);
      ArrReplace(Encoded(groups), Obj(GroupFields(Extended(last, row))));
      assert Encoded(AddRow(groups, row)) ==
             Encoded(groups)[..|groups| - 1] + [Obj(GroupFields(Extended(last, row)))];
    } else {
      ArrAppend(Encoded(groups), Obj(GroupFields(NewGroup(row))));
      assert Encoded(AddRow(groups, row)) == Encoded(groups) + [Obj(GroupFields(NewGroup(row)))];
    }
  }

  // ---------------------------------------------------------------------------------------
  // Back to rows
  // ---------------------------------------------------------------------------------------

  function IndexIn(evidence: Fields): nat {
    match Get(evidence, "target_index")
    case Some(Num(n)) => if n >= 0 then n else 0
    case _ => 0
  }

  /** One row from its group and its evidence. */
  function FlatRow(group: Group, evidence: Fields): Row {
    var all := PutAll([Field("dex_entry", group.identity.entry), Field("caller", group.identity.caller)], evidence);
    var own := Without(all, {"target_index"});
    var target := if IndexIn(evidence) < |group.matches| then group.matches[IndexIn(evidence)] else Null;
    var row := Put(own, group.identity.targetField, target);
    match group.identity.unit
    case Some(unit) => Put(row, "offset_unit", unit)
    case None => row
  }

  function Flatten(group: Group): (r: seq<Row>)
    ensures |r| == |group.evidence|
  {
    seq(|group.evidence|, i requires 0 <= i < |group.evidence| => FlatRow(group, group.evidence[i]))
  }

  function Ungroup(groups: seq<Group>): seq<Row> {
    if groups == [] then [] else Ungroup(groups[..|groups| - 1]) + Flatten(groups[|groups| - 1])
  }

  ghost predicate SameRows(a: seq<Row>, b: seq<Row>) {
    |a| == |b| && forall i :: 0 <= i < |a| ==> SameFields(a[i], b[i])
  }

  lemma EvidenceGet(row: Row, index: nat, key: string)
    ensures Get(Evidence(row, index), key) ==
            if key == "target_index" then Some(Num(index))
            else if key in {"dex_entry", "caller", TargetField(row), "offset_unit"} then None else Get(row, key)
  {
    hide Put, Without, TargetField;
    var hidden := {"dex_entry", "caller", TargetField(row), "offset_unit"};
    GetPut(Without(row, hidden), "target_index", Num(index), key);
    GetWithout(row, hidden, key);
  }

  lemma EvidenceKeys(row: Row, index: nat)
    requires DistinctKeys(row)
    ensures DistinctKeys(Evidence(row, index))
  {
    var hidden := {"dex_entry", "caller", TargetField(row), "offset_unit"};
    WithoutKeys(row, hidden);
    PutKeys(Without(row, hidden), "target_index", Num(index));
  }

  lemma TargetFieldIsOne(row: Row)
    requires IsRow(row)
    ensures TargetField(row) in TARGET_FIELDS && Get(row, TargetField(row)).Some?
  {
    FirstFieldIsOne(row, TARGET_FIELDS);
  }

  lemma {:induction false} FirstFieldIsOne(row: Row, names: seq<string>)
    requires FirstField(row, names).Some?
    ensures FirstField(row, names).value in names && Get(row, FirstField(row, names).value).Some?
  {
    if Get(row, names[0]) == None {
      FirstFieldIsOne(row, names[1..]);
    }
  }

  lemma NotATargetField(name: string)
    requires name in TARGET_FIELDS
    ensures name != "dex_entry" && name != "caller" && name != "offset_unit" && name != "target_index"
  {
    assert TARGET_FIELDS[0] == "callee" && TARGET_FIELDS[1] == "field_descriptor";
    assert TARGET_FIELDS[2] == "value" && TARGET_FIELDS[3] == "type_descriptor";
    assert "callee"[2] == 'l' && "caller"[5] == 'r' && "callee"[5] == 'e';
    assert |"value"| == 5 && |"type_descriptor"| == 15 && |"field_descriptor"| == 16;
  }

  lemma AllGet(row: Row, index: nat, key: string)
    requires IsRow(row)
    ensures var heads := [Field("dex_entry", Value(row, "dex_entry")), Field("caller", Value(row, "caller"))];
            Get(PutAll(heads, Evidence(row, index)), key) ==
            if key == "target_index" then Some(Num(index))
            else if key in {TargetField(row), "offset_unit"} then None else Get(row, key)
  {
    TargetFieldIsOne(row);
    NotATargetField(TargetField(row));
    EvidenceKeys(row, index);
    EvidenceGet(row, index, key);
    var heads := [Field("dex_entry", Value(row, "dex_entry")), Field("caller", Value(row, "caller"))];
    GetPutAll(heads, Evidence(row, index), key);
    HeadsGet(Value(row, "dex_entry"), Value(row, "caller"), key);
    hide PutAll, Evidence, TargetField, FirstField;
  }

  lemma HeadsGet(entry: Json, caller: Json, key: string)
    ensures Get([Field("dex_entry", entry), Field("caller", caller)], key) ==
            if key == "dex_entry" then Some(entry) else if key == "caller" then Some(caller) else None
  {
    var tail := [Field("caller", caller)];
    assert tail[1..] == [];
    assert Get(tail, key) == if key == "caller" then Some(caller) else None;
    assert [Field("dex_entry", entry), Field("caller", caller)][1..] == tail;
    assert |"dex_entry"| == 9 && |"caller"| == 6;
  }

  /** A row comes back from its evidence, in a group with its identity that has its target. */
  lemma FlatRowIsRow(group: Group, row: Row, index: nat)
    requires IsRow(row) && group.identity == IdentityOf(row)
    requires index < |group.matches| && group.matches[index] == Target(row)
    ensures SameFields(FlatRow(group, Evidence(row, index)), row)
  {
    TargetFieldIsOne(row);
    NotATargetField(TargetField(row));
    forall key ensures Get(FlatRow(group, Evidence(row, index)), key) == Get(row, key) {
      AllGet(row, index, key);
      EvidenceGet(row, index, "target_index");
      FlatRowGet(group, Evidence(row, index), key);
      hide FlatRow, Evidence, TargetField, FirstField, PutAll;
    }
  }

  lemma FlatRowGet(group: Group, evidence: Fields, key: string)
    ensures Get(FlatRow(group, evidence), key) ==
            if key == "offset_unit" && group.identity.unit.Some? then group.identity.unit
            else if key == group.identity.targetField then
              Some(if IndexIn(evidence) < |group.matches| then group.matches[IndexIn(evidence)] else Null)
            else if key == "target_index" then None
            else Get(PutAll([Field("dex_entry", group.identity.entry), Field("caller", group.identity.caller)], evidence), key)
  {
    hide PutAll, Put, Without, Get;
    var all := PutAll([Field("dex_entry", group.identity.entry), Field("caller", group.identity.caller)], evidence);
    var own := Without(all, {"target_index"});
    var target := if IndexIn(evidence) < |group.matches| then group.matches[IndexIn(evidence)] else Null;
    GetWithout(all, {"target_index"}, key);
    GetPut(own, group.identity.targetField, target, key);
    if group.identity.unit.Some? {
      GetPut(Put(own, group.identity.targetField, target), "offset_unit", group.identity.unit.value, key);
    }
  }

  // ---------------------------------------------------------------------------------------
  // What every grouping keeps
  // ---------------------------------------------------------------------------------------

  /** How many targets the evidence names when each new one takes the next index. */
  function Introduced(evidence: seq<Fields>): Option<nat> {
    if evidence == [] then Some(0)
    else match Introduced(evidence[..|evidence| - 1])
         case None => None
         case Some(n) =>
           var index := IndexIn(evidence[|evidence| - 1]);
           if index < n then Some(n) else if index == n then Some(n + 1) else None
  }

  ghost predicate Distinct(matches: seq<Json>) {
    forall i, j :: 0 <= i < j < |matches| ==> matches[i] != matches[j]
  }

  /** No empty group; targets are distinct, all used, and numbered in the order of first use. */
  ghost predicate GroupRight(group: Group) {
    && group.evidence != [] && Distinct(group.matches)
    && Introduced(group.evidence) == Some(|group.matches|)
    && group.matches != []
  }

  ghost predicate GroupsRight(groups: seq<Group>) {
    && (forall i :: 0 <= i < |groups| ==> GroupRight(groups[i]))
    && forall i, j :: 0 <= i < j < |groups| && j == i + 1 ==> groups[i].identity != groups[j].identity
  }

  lemma NewGroupRight(row: Row)
    ensures GroupRight(NewGroup(row))
  {
    EvidenceGet(row, 0, "target_index");
    hide Evidence, Target;
    var evidence := [Evidence(row, 0)];
    assert evidence[..0] == [] && Introduced([]) == Some(0);
    assert Introduced(evidence) == Some(1);
  }

  lemma ExtendedRight(group: Group, row: Row)
    requires GroupRight(group)
    ensures GroupRight(Extended(group, row))
  {
    var index := IndexOf(group.matches, Target(row));
    EvidenceGet(row, index, "target_index");
    hide Evidence, Target, IndexOf;
    assert (group.evidence + [Evidence(row, index)])[..|group.evidence|] == group.evidence;
  }

  lemma AddRowRight(groups: seq<Group>, row: Row)
    requires GroupsRight(groups)
    ensures GroupsRight(AddRow(groups, row))
  {
    hide GroupRight, Extended, NewGroup, IdentityOf;
    if Continues(groups, row) {
      ExtendedRight(groups[|groups| - 1], row);
      ExtendedIdentity(groups[|groups| - 1], row);
    } else {
      NewGroupRight(row);
      NewIdentity(row);
    }
  }

  lemma ExtendedIdentity(group: Group, row: Row)
    ensures Extended(group, row).identity == group.identity
  {
  }

  lemma NewIdentity(row: Row)
    ensures NewGroup(row).identity == IdentityOf(row)
  {
  }

  /** Groups are maximal runs, and target indices appear in the order of first use. */
  lemma {:induction false} GroupsAreRuns(rows: seq<Row>)
    ensures GroupsRight(GroupsOf(rows))
  {
    hide GroupRight, AddRow;
    if rows != [] {
      GroupsAreRuns(rows[..|rows| - 1]);
      AddRowRight(GroupsOf(rows[..|rows| - 1]), rows[|rows| - 1]);
    }
  }

  lemma {:induction false} IntroducedBounds(evidence: seq<Fields>, i: nat)
    requires Introduced(evidence).Some? && i < |evidence|
    ensures IndexIn(evidence[i]) < Introduced(evidence).value
  {
    var last := |evidence| - 1;
    if i < last {
      IntroducedBounds(evidence[..last], i);
    }
  }

  lemma ExtendedFlat(group: Group, row: Row)
    requires GroupRight(group)
    ensures Flatten(Extended(group, row)) ==
            Flatten(group) + [FlatRow(Extended(group, row), Evidence(row, IndexOf(group.matches, Target(row))))]
  {
    hide FlatRow, Evidence, IndexOf, Target;
    var after := Extended(group, row);
    forall i | 0 <= i < |group.evidence| ensures FlatRow(after, group.evidence[i]) == FlatRow(group, group.evidence[i]) {
      IntroducedBounds(group.evidence, i);
      FlatRowGrows(group, after, group.evidence[i]);
    }
  }

  lemma FlatRowGrows(group: Group, after: Group, evidence: Fields)
    requires after.identity == group.identity && group.matches <= after.matches && IndexIn(evidence) < |group.matches|
    ensures FlatRow(after, evidence) == FlatRow(group, evidence)
  {
    assert after.matches[IndexIn(evidence)] == group.matches[IndexIn(evidence)];
  }

  lemma AddRowUngroups(groups: seq<Group>, row: Row)
    requires GroupsRight(groups) && IsRow(row)
    ensures exists flat :: Ungroup(AddRow(groups, row)) == Ungroup(groups) + [flat] && SameFields(flat, row)
  {
    var after := AddRow(groups, row);
    var last := |after| - 1;
    if Continues(groups, row) {
      var group := groups[|groups| - 1];
      var index := IndexOf(group.matches, Target(row));
      ExtendedFlat(group, row);
      FlatRowIsRow(Extended(group, row), row, index);
      hide FlatRow, Evidence, Target, Flatten, GroupRight, IndexOf, IdentityOf, SameFields;
      assert after[..last] == groups[..|groups| - 1];
      var flat := FlatRow(Extended(group, row), Evidence(row, index));
      assert Ungroup(after) == Ungroup(groups[..|groups| - 1]) + (Flatten(group) + [flat]);
    } else {
      FlatRowIsRow(NewGroup(row), row, 0);
      hide FlatRow, Evidence, Target, GroupRight, IdentityOf, SameFields;
      assert after[..last] == groups;
      assert Flatten(NewGroup(row)) == [FlatRow(NewGroup(row), Evidence(row, 0))];
    }
  }

  /** Grouping loses nothing: flattening the groups gives the rows back, in order, with
      duplicates. */
  lemma {:induction false} UngroupInvertsGroup(rows: seq<Row>)
    requires forall i :: 0 <= i < |rows| ==> IsRow(rows[i])
    ensures SameRows(Ungroup(GroupsOf(rows)), rows)
  {
    hide IsRow, AddRow, SameRows, SameFields, GroupsRight, Ungroup;
    if rows == [] {
      NothingSame();
    } else {
      var last := |rows| - 1;
      UngroupInvertsGroup(rows[..last]);
      GroupsAreRuns(rows[..last]);
      AddRowUngroups(GroupsOf(rows[..last]), rows[last]);
      var flat :| Ungroup(GroupsOf(rows)) == Ungroup(GroupsOf(rows[..last])) + [flat] && SameFields(flat, rows[last]);
      SameAppend(Ungroup(GroupsOf(rows[..last])), rows[..last], flat, rows[last]);
      assert rows == rows[..last] + [rows[last]];
    }
  }

  lemma NothingSame()
    ensures SameRows(Ungroup([]), [])
  {
  }

  lemma SameAppend(a: seq<Row>, b: seq<Row>, x: Row, y: Row)
    requires SameRows(a, b) && SameFields(x, y)
    ensures SameRows(a + [x], b + [y])
  {
    hide SameFields;
  }

  // ---------------------------------------------------------------------------------------
  // The accumulator
  // ---------------------------------------------------------------------------------------

  datatype Limit = CallerGroups | ResponseBytes

  /** The answer to one offered row: kept, or refused by a limit. */
  function Refusal(groups: seq<Group>, row: Row, maximum: Option<int>, limit: Option<nat>): Option<Limit> {
    if !Continues(groups, row) && limit.Some? && |groups| >= limit.value then Some(CallerGroups)
    else if maximum.Some? && Size(GroupsJson(AddRow(groups, row))) > maximum.value then Some(ResponseBytes)
    else None
  }

  /** The dictionary of targets gives each match its place. */
  ghost predicate Places(matches: seq<Json>, targets: map<Json, nat>) {
    && (forall target :: target in targets <==> target in matches)
    && forall target :: target in targets ==> targets[target] == IndexOf(matches, target)
  }

  lemma {:induction false} CountMatches(matches: seq<Json>, keys: set<Json>)
    requires Distinct(matches) && forall target :: target in keys <==> target in matches
    ensures |keys| == |matches|
  {
    if matches == [] {
      assert keys == {};
    } else {
      var last := |matches| - 1;
      assert matches == matches[..last] + [matches[last]];
      CountMatches(matches[..last], keys - {matches[last]});
    }
  }

  lemma NextPlace(matches: seq<Json>, targets: map<Json, nat>, target: Json)
    requires Distinct(matches) && Places(matches, targets)
    ensures (if target in targets then targets[target] else |targets|) == IndexOf(matches, target)
  {
    if target !in targets {
      CountMatches(matches, targets.Keys);
    }
  }

  lemma {:induction false} IndexOfAppend(matches: seq<Json>, more: Json, target: Json)
    ensures IndexOf(matches + [more], target) ==
            if target in matches then IndexOf(matches, target) else if target == more then |matches| else |matches| + 1
  {
    if matches == [] {
      assert matches + [more] == [more];
    } else {
      IndexOfAppend(matches[1..], more, target);
      assert (matches + [more])[1..] == matches[1..] + [more];
    }
  }

  lemma PlacesAppend(matches: seq<Json>, targets: map<Json, nat>, target: Json)
    requires Places(matches, targets) && target !in matches
    ensures Places(matches + [target], targets[target := |matches|])
  {
    hide IndexOf;
    forall t ensures IndexOf(matches + [target], t) ==
                     if t in matches then IndexOf(matches, t) else if t == target then |matches| else |matches| + 1
    {
      IndexOfAppend(matches, target, t);
    }
  }

  lemma OnePlace(target: Json)
    ensures Places([target], map[target := 0])
  {
  }

  class ReferenceGroups {
    var groups: seq<Group>
    var identity: Option<Identity>
    var targets: map<Json, nat>
    var size: nat
    var sites: nat
    var limitedBy: Option<Limit>
    ghost var rows: seq<Row>

    /** The groups are those of the rows kept, the byte count is that of their text, and the
        identity and the targets are those of the last group. */
    ghost predicate Valid()
      reads this
    {
      && groups == GroupsOf(rows) && sites == |rows| && size == Size(GroupsJson(groups))
      && LastGroup()
    }

    ghost predicate LastGroup()
      reads this`groups, this`identity, this`targets
    {
      if groups == [] then identity == None
      else var last := groups[|groups| - 1];
           identity == Some(last.identity) && Places(last.matches, targets)
    }

    constructor ()
      ensures Valid() && rows == [] && limitedBy == None
    {
      groups, identity, targets, size, sites, limitedBy, rows := [], None, map[], 2, 0, None, [];
    }

    /** Start a group. */
    method Open(row: Row)
      requires LastGroup() && !Continues(groups, row)
      modifies this`groups, this`identity, this`targets
      ensures LastGroup() && groups == AddRow(old(groups), row)
    {
      OnePlace(Target(row));
      hide IdentityOf, Evidence, Target;
      groups := groups + [NewGroup(row)];
      identity, targets := Some(IdentityOf(row)), map[Target(row) := 0];
    }

    /** Add to the last group. */
    method Extend(row: Row, index: nat)
      requires LastGroup() && Continues(groups, row) && index == IndexOf(groups[|groups| - 1].matches, Target(row))
      modifies this`groups, this`targets
      ensures LastGroup() && groups == AddRow(old(groups), row)
    {
      var last := groups[|groups| - 1];
      var target := Target(row);
      if target !in last.matches {
        PlacesAppend(last.matches, targets, target);
      }
      hide IdentityOf, Evidence, Target, Places;
      assert target in targets <==> target in last.matches by {
        PlacesKnow(last.matches, targets, target);
      }
      var evidence := last.evidence + [Evidence(row, index)];
      if target in targets {
        groups := groups[..|groups| - 1] + [last.(evidence := evidence)];
      } else {
        groups := groups[..|groups| - 1] + [last.(evidence := evidence, matches := last.matches + [target])];
        targets := targets[target := index];
      }
    }

    /** Keep the row if neither the number of groups nor the bytes go over; the bytes compared
        are exactly those the groups would take with it. */
    method Offer(row: Row, maximum: Option<int>, limit: Option<nat>) returns (ok: bool)
      requires Valid() && IsRow(row)
      modifies this
      ensures Valid() && rows == if ok then old(rows) + [row] else old(rows)
      ensures ok <==> Refusal(old(groups), row, maximum, limit) == None
      ensures limitedBy == if ok then old(limitedBy) else Refusal(old(groups), row, maximum, limit)
    {
      GroupsAppend(rows, row);
      ExactExtra(rows, row);
      hide IsRow, GroupsOf, IdentityOf, Evidence, Target, GroupFields, Places, AddRow, Size;
      var isNew := identity != Some(IdentityOf(row));
      assert isNew == !Continues(groups, row);
      if isNew && limit.Some? && |groups| >= limit.value {
        limitedBy := Some(CallerGroups);
        return false;
      }
      var index, extra := Weigh(row, isNew);
      if maximum.Some? && size + extra > maximum.value {
        limitedBy := Some(ResponseBytes);
        return false;
      }
      if isNew {
        Open(row);
      } else {
        Extend(row, index);
      }
      size, sites, rows := size + extra, sites + 1, rows + [row];
      ok := true;
    }

    lemma LastPlaces(row: Row)
      requires Valid() && Continues(groups, row)
      ensures groups != [] && rows != [] && Distinct(groups[|groups| - 1].matches)
      ensures Places(groups[|groups| - 1].matches, targets)
    {
      LastIsRight(rows);
      hide GroupsOf, IdentityOf, Places, Distinct, Size;
    }

    /** The place of the row's target and the bytes the row would add. */
    method Weigh(row: Row, isNew: bool) returns (index: nat, extra: nat)
      requires Valid() && isNew == !Continues(groups, row)
      ensures extra == Extra(groups, row)
      ensures !isNew ==> index == IndexOf(groups[|groups| - 1].matches, Target(row))
    {
      hide GroupsOf, IdentityOf, Evidence, Target, GroupFields, Places, Size, IndexOf, NewGroup, Continues, Objects;
      var target := Target(row);
      if isNew {
        index, extra := 0, Size(Obj(GroupFields(NewGroup(row)))) + if groups == [] then 0 else 2;
      } else {
        LastPlaces(row);
        NextPlace(groups[|groups| - 1].matches, targets, target);
        PlacesKnow(groups[|groups| - 1].matches, targets, target);
        index := if target in targets then targets[target] else |targets|;
        extra := Size(Obj(Evidence(row, index))) + 2 + if target in targets then 0 else Size(target) + 2;
      }
    }
  }

  lemma LastIsRight(rows: seq<Row>)
    ensures rows != [] ==> Distinct(GroupsOf(rows)[|GroupsOf(rows)| - 1].matches)
  {
    GroupsAreRuns(rows);
    hide GroupsOf;
    if rows != [] {
      assert GroupRight(GroupsOf(rows)[|GroupsOf(rows)| - 1]);
    }
  }

  lemma PlacesKnow(matches: seq<Json>, targets: map<Json, nat>, target: Json)
    requires Places(matches, targets)
    ensures target in targets <==> target in matches
  {
  }

  lemma ExactExtra(rows: seq<Row>, row: Row)
    ensures Size(GroupsJson(AddRow(GroupsOf(rows), row))) == Size(GroupsJson(GroupsOf(rows))) + Extra(GroupsOf(rows), row)
  {
    GroupsAreRuns(rows);
    hide GroupsOf, AddRow, Extra;
    var groups := GroupsOf(rows);
    forall i | 0 <= i < |groups| ensures groups[i].matches != [] && groups[i].evidence != [] {
      assert GroupRight(groups[i]);
    }
    AddRowSize(groups, row);
  }
}
