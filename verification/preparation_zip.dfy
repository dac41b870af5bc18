/** The central directory of a ZIP archive read in one pass, and the extents its retained members may
    be read from (section 4.3 of the ZIP File Format Specification). */
module PreparationZips {
  import opened Bytes
  import opened Sorting

  const MAX_ENTRIES := 100_000

  const MAX_EXTRACT_VERSION := 63

  const CENTRAL_HEADER := 46

  const LOCAL_HEADER := 30

  // ---------------------------------------------------------------------------------------
  // Extra fields
  // ---------------------------------------------------------------------------------------

  datatype Extra = Plain | Other | Corrupt

  /** Whether extra fields are only timestamps, each inside the rest. */
  function ExtraFrom(extra: seq<byte>, position: nat): Extra
    requires position <= |extra|
    decreases |extra| - position
  {
    if |extra| - position < 4 then Plain
    else
      var kind, size := U16(extra, position), U16(extra, position + 2);
      if size + 4 > |extra| - position then Corrupt
      else if kind != 0x000A && kind != 0x5455 then Other
      else ExtraFrom(extra, position + size + 4)
  }

  predicate Timestamp(kind: nat) {
    kind == 0x000A || kind == 0x5455
  }

  /** What ends the reading of extra fields at a position, if anything does: too few bytes for
      another field, a field longer than the rest, or a field of another kind. */
  function EndsAt(extra: seq<byte>, position: nat): Option<Extra>
    requires position <= |extra|
  {
    if |extra| - position < 4 then Some(Plain)
    else if position + 4 + U16(extra, position + 2) > |extra| then Some(Corrupt)
    else if !Timestamp(U16(extra, position)) then Some(Other)
    else None
  }

  /** Places in the extra fields: the start, and each right behind the timestamp at the one before. */
  ghost predicate Timestamps(extra: seq<byte>, places: seq<nat>) {
    var last := |places| - 1;
    && places != [] && places[last] <= |extra|
    && if last == 0 then places[0] == 0
       else Timestamps(extra, places[..last]) && Behind(extra, places[last - 1], places[last])
  }

  predicate Behind(extra: seq<byte>, place: nat, next: nat) {
    place <= |extra| && EndsAt(extra, place) == None && next == place + 4 + U16(extra, place + 2)
  }

  /** After some timestamps, this ends the reading. */
  ghost predicate Ends(extra: seq<byte>, r: Extra) {
    exists places :: Timestamps(extra, places) && EndsAt(extra, places[|places| - 1]) == Some(r)
  }

  lemma {:induction false} TimestampsSkip(extra: seq<byte>, places: seq<nat>)
    requires Timestamps(extra, places)
    ensures ExtraFrom(extra, places[|places| - 1]) == ExtraFrom(extra, 0)
  {
    hide U16;
    var last := |places| - 1;
    if last > 0 {
      TimestampsSkip(extra, places[..last]);
    }
  }

  /** Extra fields are plain exactly when they are a run of timestamps and fewer than four bytes,
      corrupt exactly when a field behind such a run is longer than the rest, and something else
      exactly when one behind it is of another kind. */
  lemma ExtraMeans(extra: seq<byte>, r: Extra)
    ensures ExtraFrom(extra, 0) == r <==> Ends(extra, r)
  {
    forall places | Timestamps(extra, places) ensures ExtraFrom(extra, places[|places| - 1]) == ExtraFrom(extra, 0) {
      TimestampsSkip(extra, places);
    }
    var places := TimestampsRun(extra, [0]);
    assert EndsAt(extra, places[|places| - 1]) == Some(ExtraFrom(extra, 0));
  }

  lemma {:induction false} TimestampsRun(extra: seq<byte>, before: seq<nat>) returns (places: seq<nat>)
    requires Timestamps(extra, before)
    ensures Timestamps(extra, places) && EndsAt(extra, places[|places| - 1]).Some?
    decreases |extra| - before[|before| - 1]
  {
    hide U16;
    places := before;
    var last := before[|before| - 1];
    if EndsAt(extra, last) == None {
      var next := last + 4 + U16(extra, last + 2);
      assert (before + [next])[..|before|] == before && Behind(extra, last, next);
      places := TimestampsRun(extra, before + [next]);
    }
  }

  /** The reading loop ends as a run of timestamps and what follows it demand. */
  method PlainExtra(extra: seq<byte>) returns (r: Extra)
    ensures Ends(extra, r) && r == ExtraFrom(extra, 0)
  {
    var position := 0;
    while |extra| - position >= 4
      invariant 0 <= position <= |extra| && ExtraFrom(extra, position) == ExtraFrom(extra, 0)
      decreases |extra| - position
    {
      var kind, size := U16(extra, position), U16(extra, position + 2);
      if size + 4 > |extra| - position {
        ExtraMeans(extra, Corrupt);
        return Corrupt;
      }
      if kind != 0x000A && kind != 0x5455 {
        ExtraMeans(extra, Other);
        return Other;
      }
      position := position + size + 4;
    }
    ExtraMeans(extra, Plain);
    r := Plain;
  }

  // ---------------------------------------------------------------------------------------
  // The directory
  // ---------------------------------------------------------------------------------------

  /** What the library reads from a retained entry: its name, where its local header is, and how
      long its data is. */
  datatype Info = Info(filename: string, offset: int, compressed: nat)

  /** Library calls: decode a name, tell whether it is a safe path and whether it is code, and read
      an entry with extra fields. */
  datatype Library = Library(decode: (bool, seq<byte>) -> Option<string>, safe: string -> bool, code: string -> bool,
                             info: (seq<byte>, seq<byte>, string) -> Option<Info>)

  datatype Member = Member(name: string, offset: nat, compressed: nat, kept: bool)

  /** An archive: its bytes, where its directory starts and how long it says it is, and what was
      put in front of it. */
  datatype Archive = Archive(data: seq<byte>, start: nat, size: nat, concat: int)

  /** Neither a device nor a link nor anything else special. */
  predicate Regular(attributes: nat) {
    var kind := attributes / 0x1000_0000;
    kind == 0 || kind == 8 || kind == 4
  }

  /** The name, offset and length an entry has, unless it is refused. */
  function EntryInfo(lib: Library, a: Archive, at: nat, name: string, extra: seq<byte>): Option<Info>
    requires at + CENTRAL_HEADER <= |a.data|
  {
    if !Regular(U32(a.data, at + 38)) then None
    else if lib.code(name) || ExtraFrom(extra, 0) == Other then lib.info(a.data[at..at + CENTRAL_HEADER], extra, name)
    else if ExtraFrom(extra, 0) == Corrupt then None
    else Some(Info(name, U32(a.data, at + 42), U32(a.data, at + 20)))
  }

  /** One entry of the directory, `consumed` bytes into it, and where the next one is. */
  function EntryAt(lib: Library, a: Archive, consumed: nat): (r: Option<(Member, nat)>)
    ensures r.Some? ==> consumed + CENTRAL_HEADER <= r.value.1 <= a.size && r.value.0.offset < a.start
  {
    var at := a.start + consumed;
    if a.size < consumed + CENTRAL_HEADER || |a.data| < at + CENTRAL_HEADER then None
    else if U32(a.data, at) != 0x0201_4B50 then None
    else
      var nameSize, extraSize, commentSize := U16(a.data, at + 28), U16(a.data, at + 30), U16(a.data, at + 32);
      var next := consumed + CENTRAL_HEADER + nameSize + extraSize + commentSize;
      var body := at + CENTRAL_HEADER;
      if next > a.size || a.start + next > |a.data| then None
      else
        match lib.decode(U16(a.data, at + 8) / 0x800 % 2 == 1, a.data[body..body + nameSize])
        case None => None
        case Some(name) =>
          if '\0' in name || !lib.safe(name) || a.data[at + 6] as int > MAX_EXTRACT_VERSION then None
          else
            match EntryInfo(lib, a, at, name, a.data[body + nameSize..body + nameSize + extraSize])
            case None => None
            case Some(info) =>
              var offset := info.offset + a.concat;
              if 0 <= offset < a.start then Some((Member(info.filename, offset, info.compressed, lib.code(name)), next))
              else None
  }

  predicate Named(members: seq<Member>, name: string) {
    exists i :: 0 <= i < |members| && members[i].name == name
  }

  /** The entries of the directory from `consumed` on, behind those found before. */
  function EntriesFrom(lib: Library, a: Archive, consumed: nat, found: seq<Member>): Option<seq<Member>>
    decreases a.size - consumed
  {
    if consumed >= a.size then Some(found)
    else if |found| >= MAX_ENTRIES then None
    else
      match EntryAt(lib, a, consumed)
      case None => None
      case Some((member, next)) =>
        if Named(found, member.name) then None else EntriesFrom(lib, a, next, found + [member])
  }

  method ReadDirectory(lib: Library, a: Archive) returns (r: Option<seq<Member>>)
    ensures r == EntriesFrom(lib, a, 0, [])
  {
    hide EntryAt, Named;
    var consumed: nat := 0;
    var found: seq<Member> := [];
    while consumed < a.size
      invariant EntriesFrom(lib, a, consumed, found) == EntriesFrom(lib, a, 0, [])
      decreases a.size - consumed
    {
      if |found| >= MAX_ENTRIES {
        return None;
      }
      var entry := EntryAt(lib, a, consumed);
      if entry == None {
        return None;
      }
      var (member, next) := entry.value;
      if Named(found, member.name) {
        return None;
      }
      found := found + [member];
      consumed := next;
    }
    r := Some(found);
  }

  ghost predicate DistinctNames(members: seq<Member>) {
    forall i, j :: 0 <= i < j < |members| ==> members[i].name != members[j].name
  }

  ghost predicate Inside(members: seq<Member>, start: nat) {
    forall i :: 0 <= i < |members| ==> members[i].offset < start
  }

  /** In an accepted directory names are unique and every local header starts before it. */
  lemma {:induction false} AcceptedEntries(lib: Library, a: Archive, consumed: nat, found: seq<Member>)
    requires DistinctNames(found) && Inside(found, a.start) && |found| <= MAX_ENTRIES
    ensures match EntriesFrom(lib, a, consumed, found)
            case None => true
            case Some(members) => DistinctNames(members) && Inside(members, a.start) && |members| <= MAX_ENTRIES
    decreases a.size - consumed
  {
    hide EntryAt;
    if consumed < a.size && |found| < MAX_ENTRIES && EntryAt(lib, a, consumed).Some? {
      var (member, next) := EntryAt(lib, a, consumed).value;
      if !Named(found, member.name) {
        assert DistinctNames(found + [member]);
        AcceptedEntries(lib, a, next, found + [member]);
      }
    }
  }

  // ---------------------------------------------------------------------------------------
  // Bounds
  // ---------------------------------------------------------------------------------------

  ghost predicate Ascending(offsets: seq<nat>) {
    forall i, j :: 0 <= i < j < |offsets| ==> offsets[i] <= offsets[j]
  }

  function Offsets(members: seq<Member>): (r: seq<nat>)
    ensures |r| == |members| && forall i :: 0 <= i < |r| ==> r[i] == members[i].offset
  {
    seq(|members|, i requires 0 <= i < |members| => members[i].offset)
  }

  method SortOffsets(offsets: seq<nat>) returns (sorted: seq<nat>)
    ensures Ascending(sorted) && multiset(sorted) == multiset(offsets)
  {
    sorted := [];
    for i := 0 to |offsets|
      invariant Ascending(sorted) && multiset(sorted) == multiset(offsets[..i])
    {
      assert offsets[..i + 1] == offsets[..i] + [offsets[i]];
      sorted := InsertOffset(sorted, offsets[i]);
    }
    assert offsets[..|offsets|] == offsets;
  }

  method InsertOffset(sorted: seq<nat>, offset: nat) returns (after: seq<nat>)
    requires Ascending(sorted)
    ensures Ascending(after) && multiset(after) == multiset(sorted) + multiset{offset}
  {
    var position := BisectRight(sorted, offset);
    after := sorted[..position] + [offset] + sorted[position..];
    assert sorted == sorted[..position] + sorted[position..];
  }

  /** The first position behind everything not above `offset`, by halving. */
  method BisectRight(sorted: seq<nat>, offset: nat) returns (position: nat)
    requires Ascending(sorted)
    ensures position <= |sorted|
    ensures forall i :: 0 <= i < position ==> sorted[i] <= offset
    ensures forall i :: position <= i < |sorted| ==> sorted[i] > offset
  {
    var low, high := 0, |sorted|;
    while low < high
      invariant 0 <= low <= high <= |sorted|
      invariant forall i :: 0 <= i < low ==> sorted[i] <= offset
      invariant forall i :: high <= i < |sorted| ==> sorted[i] > offset
    {
      var middle := (low + high) / 2;
      if offset < sorted[middle] {
        high := middle;
      } else {
        low := middle + 1;
      }
    }
    position := low;
  }

  /** The next local header behind a member's, or the directory: nothing starts in between. */
  ghost predicate IsBound(members: seq<Member>, start: nat, i: nat, bound: nat)
    requires i < |members|
  {
    && members[i].offset < bound <= start
    && (forall j :: 0 <= j < |members| ==> !(members[i].offset < members[j].offset < bound))
    && (bound == start || exists j :: 0 <= j < |members| && members[j].offset == bound)
  }

  ghost predicate DistinctOffsets(members: seq<Member>) {
    forall i, j :: 0 <= i < j < |members| ==> members[i].offset != members[j].offset
  }

  /** A bound for every retained member, unless two entries share a local header. */
  method MemberBounds(members: seq<Member>, start: nat) returns (ok: bool, bounds: map<string, nat>)
    requires DistinctNames(members) && Inside(members, start)
    ensures ok <==> DistinctOffsets(members)
    ensures ok ==> forall i :: 0 <= i < |members| && members[i].kept ==>
              members[i].name in bounds && IsBound(members, start, i, bounds[members[i].name])
  {
    hide Ascending;
    var sorted := SortOffsets(Offsets(members));
    ok := AllApart(sorted);
    ApartAreDistinct(members, sorted);
    bounds := map[];
    if !ok {
      return;
    }
    for k := 0 to |members|
      invariant forall i :: 0 <= i < k && members[i].kept ==>
                  members[i].name in bounds && IsBound(members, start, i, bounds[members[i].name])
    {
      if members[k].kept {
        var position := BisectRight(sorted, members[k].offset);
        var bound := if position < |sorted| then sorted[position] else start;
        BoundFound(members, start, sorted, k, position);
        bounds := bounds[members[k].name := bound];
      }
    }
  }

  method AllApart(sorted: seq<nat>) returns (ok: bool)
    ensures ok <==> Apart(sorted)
  {
    ok := true;
    var i := 1;
    while i < |sorted|
      invariant 1 <= i && forall k :: 0 < k < i && k < |sorted| ==> sorted[k - 1] != sorted[k]
    {
      if sorted[i - 1] == sorted[i] {
        return false;
      }
      i := i + 1;
    }
  }

  ghost predicate Apart(sorted: seq<nat>) {
    forall k :: 0 < k < |sorted| ==> sorted[k - 1] != sorted[k]
  }

  lemma {:induction false} ApartAscends(sorted: seq<nat>, i: nat, j: nat)
    requires Ascending(sorted) && Apart(sorted) && i < j < |sorted|
    ensures sorted[i] < sorted[j]
  {
    if i + 1 < j {
      ApartAscends(sorted, i, j - 1);
    }
  }

  lemma ApartAreDistinct(members: seq<Member>, sorted: seq<nat>)
    requires Ascending(sorted) && multiset(sorted) == multiset(Offsets(members))
    ensures Apart(sorted) <==> DistinctOffsets(members)
  {
    var offsets := Offsets(members);
    if Apart(sorted) {
      forall i, j | 0 <= i < j < |sorted| ensures sorted[i] != sorted[j] {
        ApartAscends(sorted, i, j);
      }
      DistinctPart(sorted, offsets);
      assert forall i :: 0 <= i < |members| ==> offsets[i] == members[i].offset;
    }
    if DistinctOffsets(members) {
      assert AllDistinct(offsets);
      DistinctPart(offsets, sorted);
    }
  }

  lemma OffsetSorted(members: seq<Member>, sorted: seq<nat>, j: nat) returns (k: nat)
    requires multiset(sorted) == multiset(Offsets(members)) && j < |members|
    ensures k < |sorted| && sorted[k] == members[j].offset
  {
    assert Offsets(members)[j] in multiset(sorted);
    k :| 0 <= k < |sorted| && sorted[k] == members[j].offset;
  }

  lemma SortedOffset(members: seq<Member>, sorted: seq<nat>, k: nat)
    requires multiset(sorted) == multiset(Offsets(members)) && k < |sorted|
    ensures exists j :: 0 <= j < |members| && members[j].offset == sorted[k]
  {
    assert sorted[k] in multiset(Offsets(members));
    var j :| 0 <= j < |members| && Offsets(members)[j] == sorted[k];
    assert members[j].offset == sorted[k];
  }

  lemma BoundFound(members: seq<Member>, start: nat, sorted: seq<nat>, i: nat, position: nat)
    requires Ascending(sorted) && multiset(sorted) == multiset(Offsets(members)) && Inside(members, start)
    requires i < |members| && position <= |sorted|
    requires forall k :: 0 <= k < position ==> sorted[k] <= members[i].offset
    requires forall k :: position <= k < |sorted| ==> sorted[k] > members[i].offset
    ensures IsBound(members, start, i, if position < |sorted| then sorted[position] else start)
  {
    var bound := if position < |sorted| then sorted[position] else start;
    forall j | 0 <= j < |members| ensures !(members[i].offset < members[j].offset < bound) {
      var k := OffsetSorted(members, sorted, j);
    }
    if position < |sorted| {
      SortedOffset(members, sorted, position);
    }
  }

  // ---------------------------------------------------------------------------------------
  // Reading
  // ---------------------------------------------------------------------------------------

  /** Where a member's data starts, from its local header. */
  function Payload(a: Archive, offset: nat): Option<nat> {
    if |a.data| < offset + LOCAL_HEADER then None
    else Some(offset + LOCAL_HEADER + U16(a.data, offset + 26) + U16(a.data, offset + 28))
  }

  /** The data of a member, found through its local header, ends within a bound. */
  predicate Fits(a: Archive, m: Member, bound: nat) {
    Payload(a, m.offset).Some? && Payload(a, m.offset).value + m.compressed <= bound
  }

  /** The bytes of a member, its local header first. */
  ghost predicate Extent(a: Archive, m: Member, p: nat) {
    Payload(a, m.offset).Some? && m.offset <= p < Payload(a, m.offset).value + m.compressed
  }

  /** The bytes of the fixed part of an entry's local header. */
  ghost predicate Header(m: Member, p: nat) {
    m.offset <= p < m.offset + LOCAL_HEADER
  }

  /** A member that fits its bound holds no byte of the directory, and of no entry that starts
      behind it. */
  lemma OpenStaysInside(a: Archive, members: seq<Member>, i: nat, bound: nat, p: nat)
    requires i < |members| && IsBound(members, a.start, i, bound) && Fits(a, members[i], bound)
    requires Extent(a, members[i], p)
    ensures p < a.start
    ensures forall j :: 0 <= j < |members| && j != i ==> members[j].offset <= members[i].offset || p < members[j].offset
  {
  }

  ghost predicate HeaderCut(members: seq<Member>, i: nat)
    requires i < |members|
  {
    exists j :: 0 <= j < |members| && members[j].offset < members[i].offset < members[j].offset + LOCAL_HEADER
  }

  ghost predicate SharesHeader(a: Archive, members: seq<Member>, i: nat)
    requires i < |members|
  {
    exists j, p: nat :: 0 <= j < |members| && j != i && Extent(a, members[i], p) && Header(members[j], p)
  }

  /** Exactly when a member that fits holds a byte of another entry's local header, retained or
      not: when it starts inside that header. Only equal starts are refused. */
  lemma SharesHeaderExactly(a: Archive, members: seq<Member>, i: nat, bound: nat)
    requires i < |members| && DistinctOffsets(members)
    requires IsBound(members, a.start, i, bound) && Fits(a, members[i], bound)
    ensures SharesHeader(a, members, i) <==> HeaderCut(members, i)
  {
    if j :| 0 <= j < |members| && members[j].offset < members[i].offset < members[j].offset + LOCAL_HEADER {
      assert Extent(a, members[i], members[i].offset) && Header(members[j], members[i].offset);
    }
    forall j, p: nat | 0 <= j < |members| && j != i && Extent(a, members[i], p) && Header(members[j], p)
      ensures members[j].offset < members[i].offset < members[j].offset + LOCAL_HEADER
    {
      OpenStaysInside(a, members, i, bound, p);
      assert members[i].offset != members[j].offset;
    }
  }

  /** Members that fit share no byte. */
  lemma OpenMembersAreDisjoint(a: Archive, members: seq<Member>, i: nat, j: nat, boundI: nat, boundJ: nat, p: nat)
    requires i < |members| && j < |members| && i != j && DistinctOffsets(members)
    requires IsBound(members, a.start, i, boundI) && Fits(a, members[i], boundI)
    requires IsBound(members, a.start, j, boundJ) && Fits(a, members[j], boundJ)
    ensures !(Extent(a, members[i], p) && Extent(a, members[j], p))
  {
    hide Payload;
    assert members[i].offset < members[j].offset || members[j].offset < members[i].offset;
  }

  // ---------------------------------------------------------------------------------------
  // An archive
  // ---------------------------------------------------------------------------------------

  /** What opening an archive leaves: its entries, and the bounds of those retained. */
  class PreparationZip {
    const a: Archive
    var members: seq<Member>
    var bounds: map<string, nat>

    constructor (a: Archive)
      ensures this.a == a && members == [] && Valid()
    {
      this.a, members, bounds := a, [], map[];
    }

    ghost predicate Valid()
      reads this
    {
      && DistinctNames(members) && DistinctOffsets(members) && Inside(members, a.start)
      && forall i :: 0 <= i < |members| && members[i].kept ==>
           members[i].name in bounds && IsBound(members, a.start, i, bounds[members[i].name])
    }

    /** Read the directory: accepted exactly when its entries are and no two share a local header. */
    method Load(lib: Library) returns (ok: bool)
      requires Valid()
      modifies this
      ensures Valid()
      ensures ok <==> EntriesFrom(lib, a, 0, []).Some? && DistinctOffsets(EntriesFrom(lib, a, 0, []).value)
      ensures members == if ok then EntriesFrom(lib, a, 0, []).value else old(members)
    {
      hide EntriesFrom, IsBound;
      var read := ReadDirectory(lib, a);
      AcceptedEntries(lib, a, 0, []);
      if read == None {
        return false;
      }
      var found;
      ok, found := MemberBounds(read.value, a.start);
      if ok {
        members, bounds := read.value, found;
      }
    }

    /** What `Open` accepts. */
    ghost predicate Opens(i: nat)
      reads this
      requires i < |members| && Valid()
    {
      members[i].kept && Fits(a, members[i], bounds[members[i].name])
    }

    /** A retained member opens when its data ends within its bound. */
    method Open(i: nat) returns (ok: bool)
      requires Valid() && i < |members| && members[i].kept
      ensures ok <==> Opens(i)
    {
      var payload := Payload(a, members[i].offset);
      if payload == None {
        return false;
      }
      ok := payload.value + members[i].compressed <= bounds[members[i].name];
    }

    /** Members of an accepted archive that open lie before the directory, share no byte with each
        other, and with another entry's local header only by starting inside it. */
    lemma OpenedApart(i: nat)
      requires Valid() && i < |members| && Opens(i)
      ensures forall p: nat :: Extent(a, members[i], p) ==> p < a.start
      ensures forall j, p: nat :: 0 <= j < |members| && j != i && Opens(j) ==>
                !(Extent(a, members[i], p) && Extent(a, members[j], p))
      ensures SharesHeader(a, members, i) <==> HeaderCut(members, i)
    {
      hide IsBound, Fits, Extent, SharesHeader, HeaderCut;
      SharesHeaderExactly(a, members, i, bounds[members[i].name]);
      forall p: nat | Extent(a, members[i], p) ensures p < a.start {
        OpenStaysInside(a, members, i, bounds[members[i].name], p);
      }
      forall j, p: nat | 0 <= j < |members| && j != i && Opens(j)
        ensures !(Extent(a, members[i], p) && Extent(a, members[j], p))
      {
        OpenMembersAreDisjoint(a, members, i, j, bounds[members[i].name], bounds[members[j].name], p);
      }
    }
  }

  // ---------------------------------------------------------------------------------------
  // An archive that is accepted although code starts inside a local header
  // ---------------------------------------------------------------------------------------

  /** A resource "a" with its local header at 0, the code "b.dex" with its local header at 10 and its
      name behind that, and at 60 the directory of the two: both are empty and stored. */
  function ByteAt(i: nat): byte {
    match i
    case 0 => 0x50 case 1 => 0x4B case 2 => 3 case 3 => 4
    case 10 => 0x50 case 11 => 0x4B case 12 => 3 case 13 => 4
    case 36 => 5 case 40 => 98 case 41 => 46 case 42 => 100 case 43 => 101 case 44 => 120
    case 60 => 0x50 case 61 => 0x4B case 62 => 1 case 63 => 2
    case 88 => 1 case 106 => 97
    case 107 => 0x50 case 108 => 0x4B case 109 => 1 case 110 => 2
    case 135 => 5 case 149 => 10
    case 153 => 98 case 154 => 46 case 155 => 100 case 156 => 101 case 157 => 120
    case _ => 0
  }

  function NestedBytes(): (r: seq<byte>)
    ensures |r| == 158 && forall i :: 0 <= i < 158 ==> r[i] == ByteAt(i)
  {
    seq(158, (i: nat) => ByteAt(i))
  }

  function NestedArchive(): Archive {
    Archive(NestedBytes(), 60, 98, 0)
  }

  function AsText(bytes: seq<byte>): (r: string)
    ensures |r| == |bytes| && forall i :: 0 <= i < |r| ==> r[i] == bytes[i] as char
  {
    seq(|bytes|, i requires 0 <= i < |bytes| => bytes[i] as char)
  }

  /** A library for which every path is safe and DEX files are code. */
  function PlainLibrary(): Library {
    Library((utf8: bool, bytes: seq<byte>) => Some(AsText(bytes)), (name: string) => true, (name: string) => name == "b.dex",
            (header: seq<byte>, extra: seq<byte>, name: string) =>
              if |header| == CENTRAL_HEADER then Some(Info(name, U32(header, 42), U32(header, 20))) else None)
  }

  function NestedMembers(): seq<Member> {
    [Member("a", 0, 0, false), Member("b.dex", 10, 0, true)]
  }

  /** An entry that is neither refused nor longer than the directory. */
  lemma EntryReads(lib: Library, a: Archive, consumed: nat, nameSize: nat, name: string, info: Info)
    requires var at := a.start + consumed;
             && consumed + CENTRAL_HEADER + nameSize <= a.size && at + CENTRAL_HEADER + nameSize <= |a.data|
             && U32(a.data, at) == 0x0201_4B50 && U16(a.data, at + 28) == nameSize
             && U16(a.data, at + 30) == 0 && U16(a.data, at + 32) == 0 && U16(a.data, at + 8) == 0 && a.data[at + 6] == 0
             && lib.decode(false, a.data[at + CENTRAL_HEADER..at + CENTRAL_HEADER + nameSize]) == Some(name)
             && EntryInfo(lib, a, at, name, []) == Some(info)
    requires '\0' !in name && lib.safe(name) && 0 <= info.offset + a.concat < a.start
    ensures EntryAt(lib, a, consumed) ==
            Some((Member(info.filename, info.offset + a.concat, info.compressed, lib.code(name)),
                  consumed + CENTRAL_HEADER + nameSize))
  {
    hide U32, U16, EntryInfo;
    var body := a.start + consumed + CENTRAL_HEADER;
    assert a.data[body + nameSize..body + nameSize + 0] == [];
  }

  lemma Word(p: nat)
    requires p + 2 <= 158
    ensures U16(NestedBytes(), p) == ByteAt(p) as int + 0x100 * (ByteAt(p + 1) as int)
  {
    hide ByteAt;
  }

  lemma FirstBytes()
    ensures var data := NestedBytes();
            && U32(data, 60) == 0x0201_4B50 && U16(data, 68) == 0 && U16(data, 88) == 1 && U16(data, 90) == 0
            && U16(data, 92) == 0 && U32(data, 98) == 0 && U32(data, 102) == 0 && U32(data, 80) == 0 && data[66] == 0
  {
    hide U16;
    Word(60);
    Word(62);
    Word(68);
    Word(80);
    Word(82);
    Word(88);
    Word(90);
    Word(92);
    Word(98);
    Word(100);
    Word(102);
    Word(104);
    hide NestedBytes;
  }

  lemma FirstName()
    ensures AsText(NestedBytes()[106..107]) == "a"
  {
    assert NestedBytes()[106..107][0] == 97;
  }

  lemma FirstEntry()
    ensures EntryAt(PlainLibrary(), NestedArchive(), 0) == Some((NestedMembers()[0], 47))
  {
    FirstBytes();
    FirstName();
    hide NestedBytes, U16, U32, AsText, EntryAt;
    EntryReads(PlainLibrary(), NestedArchive(), 0, 1, "a", Info("a", 0, 0));
  }

  lemma SecondBytes()
    ensures var data := NestedBytes();
            && U32(data, 107) == 0x0201_4B50 && U16(data, 115) == 0 && U16(data, 135) == 5 && U16(data, 137) == 0
            && U16(data, 139) == 0 && U32(data, 145) == 0 && data[113] == 0
  {
    hide U16;
    Word(107);
    Word(109);
    Word(115);
    Word(135);
    Word(137);
    Word(139);
    Word(145);
    Word(147);
    hide NestedBytes;
  }

  lemma SecondName()
    ensures AsText(NestedBytes()[153..158]) == "b.dex"
  {
    var name := NestedBytes()[153..158];
    assert name[0] == 98 && name[1] == 46 && name[2] == 100 && name[3] == 101 && name[4] == 120;
  }

  lemma SecondEntry()
    ensures EntryAt(PlainLibrary(), NestedArchive(), 47) == Some((NestedMembers()[1], 98))
  {
    SecondBytes();
    SecondName();
    SecondHeader();
    hide NestedBytes, U16, U32, AsText, EntryAt;
    EntryReads(PlainLibrary(), NestedArchive(), 47, 5, "b.dex", Info("b.dex", 10, 0));
  }

  lemma SecondHeader()
    ensures var header := NestedBytes()[107..153]; |header| == CENTRAL_HEADER && U32(header, 42) == 10 && U32(header, 20) == 0
  {
    var data := NestedBytes();
    var header := data[107..153];
    assert header[42] == data[149] && header[43] == data[150] && header[44] == data[151] && header[45] == data[152];
    assert header[20] == data[127] && header[21] == data[128] && header[22] == data[129] && header[23] == data[130];
  }

  /** The directory is read as these two entries; no two share a local header, so it is accepted; and the
      code fits its bound although it starts ten bytes into the header of the resource. */
  lemma CodeInsideHeader()
    ensures EntriesFrom(PlainLibrary(), NestedArchive(), 0, []) == Some(NestedMembers()) && DistinctOffsets(NestedMembers())
    ensures IsBound(NestedMembers(), 60, 1, 60) && Fits(NestedArchive(), NestedMembers()[1], 60)
    ensures SharesHeader(NestedArchive(), NestedMembers(), 1)
  {
    FirstEntry();
    SecondEntry();
    NestedFits();
    NestedShares();
    hide EntryAt, NestedBytes, Fits, SharesHeader;
    var lib, a, first, second := PlainLibrary(), NestedArchive(), NestedMembers()[0], NestedMembers()[1];
    hide PlainLibrary;
    assert [] + [first] == [first] && [first] + [second] == [first, second];
    assert EntriesFrom(lib, a, 98, [first, second]) == Some([first, second]);
    assert !Named([first], second.name);
    assert EntriesFrom(lib, a, 47, [first]) == Some([first, second]);
    assert !Named([], first.name);
  }

  lemma NestedShares()
    ensures SharesHeader(NestedArchive(), NestedMembers(), 1)
  {
    NestedFits();
    hide NestedBytes, Fits, Extent;
    assert Extent(NestedArchive(), NestedMembers()[1], 20) && Header(NestedMembers()[0], 20);
  }

  lemma NestedFits()
    ensures Fits(NestedArchive(), NestedMembers()[1], 60) && Extent(NestedArchive(), NestedMembers()[1], 20)
  {
    var data := NestedBytes();
    assert U16(data, 36) == 5 && U16(data, 38) == 0;
    hide NestedBytes, ByteAt, U16;
  }

  /** Such an archive is opened, and so is the code in it. */
  method OpenNested() returns (zip: PreparationZip, ok: bool)
    ensures fresh(zip) && zip.Valid() && zip.a == NestedArchive() && zip.members == NestedMembers()
    ensures ok && zip.Opens(1) && SharesHeader(zip.a, zip.members, 1)
  {
    CodeInsideHeader();
    hide EntriesFrom, SharesHeader, Fits, NestedBytes;
    zip := new PreparationZip(NestedArchive());
    ok := zip.Load(PlainLibrary());
    OnlyBound(zip.members, 60, 1, zip.bounds["b.dex"], 60);
    ok := zip.Open(1);
  }

  /** The bound of a member is determined. */
  lemma OnlyBound(members: seq<Member>, start: nat, i: nat, a: nat, b: nat)
    requires i < |members| && IsBound(members, start, i, a) && IsBound(members, start, i, b)
    ensures a == b
  {
  }
}
