/** Pages of caller groups assembled from flat chunks: the byte account that decides when a page
    is full, and a whole run of continued pages. */
module GroupedReferences {
  import opened Bytes
  import opened JsonText
  import opened ReferenceGroupings
  import opened ReferenceCursors

  /** What the flat query answers for one position. */
  datatype Chunk = Failed | Chunk(metadata: Fields, offset: int, rows: seq<Row>)

  function TotalOf(metadata: Fields): nat {
    match Get(metadata, "total")
    case Some(Num(n)) => if n >= 0 then n else 0
    case _ => 0
  }

  // ---------------------------------------------------------------------------------------
  // The response
  // ---------------------------------------------------------------------------------------

  /** What every page of one collection repeats. */
  function Base(metadata: Fields, session: string, offset: nat, limit: nat, maximum: int): Fields {
    PutAll(metadata, [Field("session_id", Text(session)), Field("reference_format", Text("grouped")),
                      Field("limit_unit", Text("caller_groups")), Field("total_unit", Text("reference_sites")),
                      Field("offset", Num(offset)), Field("limit", Num(limit)), Field("response_byte_limit", Num(maximum))])
  }

  /** The part of a response that is the page's own. */
  function Own(groups: Json, sites: nat, more: bool, next: Json, cursor: Json): Fields {
    [Field("groups", groups), Field("returned_sites", Num(sites)), Field("has_more", Bool(more)),
     Field("truncated", Bool(more)), Field("next_offset", next), Field("next_cursor", cursor)]
  }

  const OWN_KEYS := {"groups", "returned_sites", "has_more", "truncated", "next_offset", "next_cursor", "page_limited_by"}

  /** None of the page's own keys is taken. */
  ghost predicate Plain(fields: Fields) {
    fields != [] && forall key :: key in OWN_KEYS ==> Get(fields, key) == None
  }

  function LimitName(limit: Limit): string {
    match limit
    case CallerGroups => "caller_groups"
    case ResponseBytes => "response_bytes"
  }

  function LimitedBy(limit: Limit): Field {
    Field("page_limited_by", Text(LimitName(limit)))
  }

  /** The response with placeholders, before anything is known about the page. */
  function Template(base: Fields): Fields {
    PutAll(base, Own(Arr([]), 0, true, Num(0), Text("")) + [LimitedBy(ResponseBytes)])
  }

  function Header(base: Fields): int {
    Size(Obj(Template(base))) - 2
  }

  const LIMITED_TEXT := ", \"page_limited_by\": \"response_bytes\""

  /** Everything but the groups, for a page that would end at `end` with `count` sites. */
  function Overhead(base: Fields, codec: Codec, count: nat, end: nat, total: nat): int
    requires codec.Valid()
  {
    Header(base) + |Digits(count)| - 1 +
    if end < total then |Digits(end)| - 1 + CursorSize(codec, end) else 7 - |LIMITED_TEXT|
  }

  /** The finished response. */
  function Response(base: Fields, codec: Codec, groups: seq<Group>, sites: nat, position: nat, total: nat, limit: Limit)
    : Fields
    requires codec.Valid()
  {
    if position < total then
      PutAll(base, Own(GroupsJson(groups), sites, true, Num(position), Text(Encode(codec, position))) + [LimitedBy(limit)])
    else PutAll(base, Own(GroupsJson(groups), sites, false, Null, Null))
  }

  // ---------------------------------------------------------------------------------------
  // Its length
  // ---------------------------------------------------------------------------------------

  /** Every added field brings itself and a separator. */
  function Added(more: Fields): nat {
    if more == [] then 0 else Added(more[..|more| - 1]) + FieldSize(more[|more| - 1]) + 2
  }

  lemma {:induction false} ObjExtend(fields: Fields, more: Fields)
    requires fields != []
    ensures Size(Obj(fields + more)) == Size(Obj(fields)) + Added(more)
    decreases |more|
  {
    hide Size, FieldSize;
    if more == [] {
      assert fields + more == fields;
    } else {
      var last := |more| - 1;
      ObjExtend(fields, more[..last]);
      ObjAppend(fields + more[..last], more[last]);
      assert fields + more == fields + more[..last] + [more[last]];
    }
  }

  lemma {:induction false} PutAllNew(fields: Fields, more: Fields)
    requires DistinctKeys(more)
    requires forall i :: 0 <= i < |more| ==> Get(fields, more[i].key) == None
    ensures PutAll(fields, more) == fields + more
    decreases |more|
  {
    if more == [] {
      assert fields + more == fields;
    } else {
      PutNew(fields, more[0].key, more[0].value);
      forall i | 0 <= i < |more[1..]| ensures Get(fields + [more[0]], more[1..][i].key) == None {
        assert more[1..][i] == more[i + 1];
        GetAppend(fields, more[0], more[i + 1].key);
      }
      PutAllNew(fields + [more[0]], more[1..]);
      assert fields + [more[0]] + more[1..] == fields + more;
    }
  }

  /** Text that is written as it is. */
  ghost predicate Unescaped(s: string) {
    forall i :: 0 <= i < |s| ==> 32 <= s[i] as int < 127 && s[i] != '"' && s[i] != '\\'
  }

  lemma {:induction false} EscapedPlain(codes: seq<nat>)
    requires forall i :: 0 <= i < |codes| ==> 32 <= codes[i] < 127 && codes[i] != 34 && codes[i] != 92
    ensures |Escaped(codes)| == |codes|
  {
    if codes != [] {
      EscapedPlain(codes[1..]);
    }
  }

  lemma AddedAppend(more: Fields, field: Field)
    ensures Added(more + [field]) == Added(more) + FieldSize(field) + 2
  {
    assert (more + [field])[..|more|] == more;
  }

  function KeySize(key: string): nat {
    |Quote(Codes(key))| + 4
  }

  /** What the page's own keys take, without their values. */
  function OwnKeySize(): nat {
    KeySize("groups") + KeySize("returned_sites") + KeySize("has_more") + KeySize("truncated") + KeySize("next_offset")
    + KeySize("next_cursor")
  }

  lemma OwnAdded(groups: Json, sites: nat, more: bool, next: Json, cursor: Json)
    ensures Added(Own(groups, sites, more, next, cursor)) ==
            OwnKeySize() + Size(groups) + Size(Num(sites)) + 2 * Size(Bool(more)) + Size(next) + Size(cursor)
  {
    hide Size, Quote, Added;
    var a, b := Field("groups", groups), Field("returned_sites", Num(sites));
    var c, d := Field("has_more", Bool(more)), Field("truncated", Bool(more));
    var e, f := Field("next_offset", next), Field("next_cursor", cursor);
    NothingAdded();
    AddedAppend([], a);
    AddedAppend([a], b);
    AddedAppend([a, b], c);
    AddedAppend([a, b, c], d);
    AddedAppend([a, b, c, d], e);
    AddedAppend([a, b, c, d, e], f);
    assert [] + [a] == [a] && [a] + [b] == [a, b] && [a, b] + [c] == [a, b, c] && [a, b, c] + [d] == [a, b, c, d];
    assert [a, b, c, d] + [e] == [a, b, c, d, e] && [a, b, c, d, e] + [f] == Own(groups, sites, more, next, cursor);
  }

  lemma NothingAdded()
    ensures Added([]) == 0
  {
  }

  function NameLength(i: nat): nat
    requires i < 7
  {
    if i == 0 then 6 else if i == 1 then 14 else if i == 2 then 8 else if i == 3 then 9 else if i < 6 then 11 else 15
  }

  lemma NameLengths(groups: Json, sites: nat, more: bool, next: Json, cursor: Json, limit: Limit, i: nat)
    requires i < 7
    ensures var key := (Own(groups, sites, more, next, cursor) + [LimitedBy(limit)])[i].key;
            key in OWN_KEYS && |key| == NameLength(i)
  {
    hide Text;
  }

  lemma NextNames()
    ensures "next_offset" != "next_cursor"
  {
    assert "next_offset"[5] == 'o' && "next_cursor"[5] == 'c';
  }

  lemma OwnKeys(groups: Json, sites: nat, more: bool, next: Json, cursor: Json, limit: Limit)
    ensures DistinctKeys(Own(groups, sites, more, next, cursor) + [LimitedBy(limit)])
    ensures forall i :: 0 <= i < 7 ==> (Own(groups, sites, more, next, cursor) + [LimitedBy(limit)])[i].key in OWN_KEYS
  {
    var all := Own(groups, sites, more, next, cursor) + [LimitedBy(limit)];
    NextNames();
    assert all[4].key == "next_offset" && all[5].key == "next_cursor";
    hide Own, LimitedBy;
    forall i | 0 <= i < 7 ensures all[i].key in OWN_KEYS && |all[i].key| == NameLength(i) {
      NameLengths(groups, sites, more, next, cursor, limit, i);
    }
  }

  lemma PrefixKeys(fields: Fields, field: Field)
    requires DistinctKeys(fields + [field])
    ensures DistinctKeys(fields)
  {
    assert forall i :: 0 <= i < |fields| ==> (fields + [field])[i] == fields[i];
  }

  lemma OwnFresh(base: Fields, groups: Json, sites: nat, more: bool, next: Json, cursor: Json)
    requires Plain(base)
    ensures var own := Own(groups, sites, more, next, cursor);
            DistinctKeys(own) && |own| == 6 && forall i :: 0 <= i < |own| ==> Get(base, own[i].key) == None
  {
    var own := Own(groups, sites, more, next, cursor);
    OwnKeys(groups, sites, more, next, cursor, ResponseBytes);
    PrefixKeys(own, LimitedBy(ResponseBytes));
    hide DistinctKeys, LimitedBy, Get;
    assert |own| == 6;
    hide Own;
    forall i | 0 <= i < |own| ensures Get(base, own[i].key) == None {
      assert own[i] == (own + [LimitedBy(ResponseBytes)])[i];
    }
  }

  lemma OwnSize(base: Fields, groups: Json, sites: nat, more: bool, next: Json, cursor: Json)
    requires Plain(base)
    ensures Size(Obj(PutAll(base, Own(groups, sites, more, next, cursor)))) ==
            Size(Obj(base)) + OwnKeySize() + Size(groups) + Size(Num(sites)) + 2 * Size(Bool(more)) + Size(next) + Size(cursor)
  {
    assert base != [];
    hide *;
    OwnFresh(base, groups, sites, more, next, cursor);
    OwnAdded(groups, sites, more, next, cursor);
    PutAllNew(base, Own(groups, sites, more, next, cursor));
    ObjExtend(base, Own(groups, sites, more, next, cursor));
  }

  lemma LimitedSize(base: Fields, groups: Json, sites: nat, more: bool, next: Json, cursor: Json, limit: Limit)
    requires Plain(base)
    ensures Size(Obj(PutAll(base, Own(groups, sites, more, next, cursor) + [LimitedBy(limit)]))) ==
            Size(Obj(base)) + OwnKeySize() + Size(groups) + Size(Num(sites)) + 2 * Size(Bool(more)) + Size(next)
            + Size(cursor) + FieldSize(LimitedBy(limit)) + 2
  {
    OwnKeys(groups, sites, more, next, cursor, limit);
    OwnAdded(groups, sites, more, next, cursor);
    hide Size, Quote, Added, OwnKeySize, DistinctKeys, LimitedBy, FieldSize;
    var own := Own(groups, sites, more, next, cursor);
    var all := own + [LimitedBy(limit)];
    AddedAppend(own, LimitedBy(limit));
    PutAllNew(base, all);
    ObjExtend(base, all);
  }

  lemma QuoteSize(s: string)
    requires Unescaped(s)
    ensures |Quote(Codes(s))| == |s| + 2 && Size(Text(s)) == |s| + 2
  {
    EscapedPlain(Codes(s));
  }

  lemma LimitNamesPlain()
    ensures Unescaped("page_limited_by") && |"page_limited_by"| == 15
    ensures Unescaped("response_bytes") && |"response_bytes"| == 14
    ensures Unescaped("caller_groups") && |"caller_groups"| == 13
  {
  }

  lemma LimitNamesSize()
    ensures FieldSize(LimitedBy(ResponseBytes)) + 2 == |LIMITED_TEXT|
    ensures FieldSize(LimitedBy(CallerGroups)) + 1 == FieldSize(LimitedBy(ResponseBytes))
  {
    LimitNamesPlain();
    hide Unescaped, Codes, Quote, Size;
    QuoteSize("response_bytes");
    QuoteSize("caller_groups");
    QuoteSize("page_limited_by");
  }

  lemma SmallSizes(n: nat)
    ensures Size(Num(n)) == |Digits(n)| && |Digits(0)| == 1
    ensures Size(Bool(true)) == 4 && Size(Bool(false)) == 5 && Size(Null) == 4 && Size(Arr([])) == 2
    ensures Size(Text("")) == 2
  {
    assert Codes("") == [];
  }

  lemma {:induction false} CursorPlain(data: seq<byte>)
    ensures Unescaped(Encode64(data))
  {
    hide First, Second, Third, Fourth;
    if |data| > 2 {
      CursorPlain(data[3..]);
    }
  }

  /** The account is the response: apart from the one byte by which the shorter name of the
      group limit differs, overhead and groups are the whole encoded length. */
  lemma ResponseSize(base: Fields, codec: Codec, groups: seq<Group>, sites: nat, position: nat, total: nat, limit: Limit)
    requires Plain(base) && codec.Valid()
    ensures Size(Obj(Response(base, codec, groups, sites, position, total, limit))) ==
            Size(GroupsJson(groups)) + Overhead(base, codec, sites, position, total)
            - if position < total && limit == CallerGroups then 1 else 0
  {
    LimitNamesSize();
    SmallSizes(sites);
    SmallSizes(position);
    LimitedSize(base, Arr([]), 0, true, Num(0), Text(""), ResponseBytes);
    SmallSizes(0);
    if position < total {
      var cursor := Encode(codec, position);
      CursorPlain(Signed(codec, position));
      QuoteSize(cursor);
      SizeIsExact(codec, position);
      LimitedSize(base, GroupsJson(groups), sites, true, Num(position), Text(cursor), limit);
    } else {
      OwnSize(base, GroupsJson(groups), sites, false, Null, Null);
    }
    hide Size, GroupsJson, Encode, CursorSize, Digits, Own, FieldSize, PutAll, OwnKeySize, LimitedBy, Text;
  }

  // ---------------------------------------------------------------------------------------
  // One page, as a function of the whole stream
  // ---------------------------------------------------------------------------------------

  /** What is fixed while one page is collected. */
  datatype Collection = Collection(base: Fields, codec: Codec, total: nat, maximum: int, limit: nat)
  {
    ghost predicate Valid() {
      Plain(base) && codec.Valid()
    }
  }

  /** The groups of a stretch of the stream. */
  function Between(all: seq<Row>, offset: nat, end: nat): seq<Group>
    requires offset <= end <= |all|
  {
    GroupsOf(all[offset..end])
  }

  lemma BetweenStep(all: seq<Row>, offset: nat, end: nat)
    requires offset <= end < |all|
    ensures Between(all, offset, end + 1) == AddRow(Between(all, offset, end), all[end])
  {
    assert all[offset..end + 1] == all[offset..end] + [all[end]];
    GroupsAppend(all[offset..end], all[end]);
  }

  /** Whether one more row ends the page. */
  function Verdict(c: Collection, groups: seq<Group>, count: nat, end: nat, row: Row): Option<Limit>
    requires c.Valid()
  {
    Refusal(groups, row, Some(c.maximum - Overhead(c.base, c.codec, count, end, c.total)), Some(c.limit))
  }

  datatype Reached = Reached(position: nat, limit: Option<Limit>)

  /** How far a page from `offset` gets that has come to `position`. */
  function Reach(c: Collection, all: seq<Row>, offset: nat, position: nat): (r: Reached)
    requires c.Valid() && offset <= position <= |all|
    ensures position <= r.position <= |all|
    ensures r.limit == None <==> r.position == |all|
    decreases |all| - position
  {
    if position == |all| then Reached(position, None)
    else
      match Verdict(c, Between(all, offset, position), position - offset + 1, position + 1, all[position])
      case None => Reach(c, all, offset, position + 1)
      case Some(limit) => Reached(position, Some(limit))
  }

  datatype PageResult =
    | InvalidCursor
    | WorkerFailed
    | ReferenceChanged
    | ResponseLimit
    | Page(offset: nat, position: nat, groups: seq<Group>, response: Fields)

  function LimitOf(limit: Option<Limit>): Limit {
    match limit
    case Some(l) => l
    case None => ResponseBytes
  }

  function Finished(c: Collection, groups: seq<Group>, offset: nat, position: nat, limit: Option<Limit>): PageResult
    requires c.Valid() && offset <= position
  {
    if position == offset && offset < c.total then ResponseLimit
    else
      var response := Response(c.base, c.codec, groups, position - offset, position, c.total, LimitOf(limit));
      if Size(Obj(response)) <= c.maximum then Page(offset, position, groups, response) else ResponseLimit
  }

  /** The page from an offset: the stream alone decides it, however it arrives. */
  function PageOf(c: Collection, all: seq<Row>, offset: nat): PageResult
    requires c.Valid() && offset <= |all| == c.total
  {
    var reached := Reach(c, all, offset, offset);
    Finished(c, Between(all, offset, reached.position), offset, reached.position, reached.limit)
  }

  lemma {:induction false} ReachFits(c: Collection, all: seq<Row>, offset: nat, position: nat)
    requires c.Valid() && offset <= position <= |all| == c.total
    ensures var reached := Reach(c, all, offset, position).position;
            reached == position ||
            Size(GroupsJson(Between(all, offset, reached)))
            <= c.maximum - Overhead(c.base, c.codec, reached - offset, reached, c.total)
    decreases |all| - position
  {
    hide GroupsJson, AddRow, Overhead, Size, Collection.Valid, Between;
    if position < |all| {
      var groups := Between(all, offset, position);
      var verdict := Verdict(c, groups, position - offset + 1, position + 1, all[position]);
      if verdict == None {
        BetweenStep(all, offset, position);
        ReachFits(c, all, offset, position + 1);
      }
    }
  }

  /** A page that accepted at least one site never fails the final check of its length. */
  lemma AcceptedPageFits(c: Collection, all: seq<Row>, offset: nat)
    requires c.Valid() && offset <= |all| == c.total
    ensures var reached := Reach(c, all, offset, offset);
            PageOf(c, all, offset).ResponseLimit? ==> reached.position == offset
  {
    var reached := Reach(c, all, offset, offset);
    ReachFits(c, all, offset, offset);
    ResponseSize(c.base, c.codec, Between(all, offset, reached.position), reached.position - offset, reached.position,
                 c.total, LimitOf(reached.limit));
    hide Reach, Between, GroupsJson, Overhead, Size, Response;
  }

  /** A page never stops early: the row it refused would start one group too many, or the same
      response with that row would be longer than allowed. */
  lemma RefusedRowDoesNotFit(c: Collection, all: seq<Row>, offset: nat)
    requires c.Valid() && offset <= |all| == c.total && Reach(c, all, offset, offset).limit.Some?
    ensures var reached := Reach(c, all, offset, offset);
            var groups := Between(all, offset, reached.position);
            var next := Between(all, offset, reached.position + 1);
            if reached.limit.value == CallerGroups then |groups| >= c.limit && |next| == |groups| + 1
            else Size(Obj(Response(c.base, c.codec, next, reached.position + 1 - offset, reached.position + 1, c.total,
                                   ResponseBytes))) > c.maximum
  {
    hide *;
    var reached := Reach(c, all, offset, offset);
    var end := reached.position;
    var groups := Between(all, offset, end);
    ReachStops(c, all, offset, offset);
    BetweenStep(all, offset, end);
    VerdictMeans(c, groups, end - offset + 1, end + 1, all[end]);
    if reached.limit.value == ResponseBytes {
      LongerResponse(c, AddRow(groups, all[end]), end + 1 - offset, end + 1);
    }
  }

  lemma VerdictMeans(c: Collection, groups: seq<Group>, count: nat, end: nat, row: Row)
    requires c.Valid()
    ensures match Verdict(c, groups, count, end, row)
            case None => true
            case Some(CallerGroups) => |groups| >= c.limit && |AddRow(groups, row)| == |groups| + 1
            case Some(ResponseBytes) =>
              Size(GroupsJson(AddRow(groups, row))) > c.maximum - Overhead(c.base, c.codec, count, end, c.total)
  {
    hide GroupsJson, Size, Overhead, NewGroup, Extended;
  }

  lemma LongerResponse(c: Collection, groups: seq<Group>, count: nat, end: nat)
    requires c.Valid() && Size(GroupsJson(groups)) > c.maximum - Overhead(c.base, c.codec, count, end, c.total)
    ensures Size(Obj(Response(c.base, c.codec, groups, count, end, c.total, ResponseBytes))) > c.maximum
  {
    ResponseSize(c.base, c.codec, groups, count, end, c.total, ResponseBytes);
    hide GroupsJson, Overhead, Size, Response;
  }

  lemma {:induction false} ReachStops(c: Collection, all: seq<Row>, offset: nat, position: nat)
    requires c.Valid() && offset <= position <= |all| && Reach(c, all, offset, position).limit.Some?
    ensures var reached := Reach(c, all, offset, position);
            reached.limit == Verdict(c, Between(all, offset, reached.position), reached.position - offset + 1,
                                     reached.position + 1, all[reached.position])
    decreases |all| - position
  {
    hide Verdict, Between, Collection.Valid;
    if Verdict(c, Between(all, offset, position), position - offset + 1, position + 1, all[position]) == None {
      ReachStops(c, all, offset, position + 1);
    }
  }

  // ---------------------------------------------------------------------------------------
  // Collecting the page
  // ---------------------------------------------------------------------------------------

  predicate SameDict(a: Fields, b: Fields) {
    && (forall i :: 0 <= i < |a| ==> Get(b, a[i].key) == Get(a, a[i].key))
    && forall i :: 0 <= i < |b| ==> Get(a, b[i].key) == Get(b, b[i].key)
  }

  /** Chunks of one stream: each a true slice of it, of any size but empty, with one metadata. */
  ghost predicate Faithful(execute: nat -> Chunk, metadata: Fields, all: seq<Row>) {
    TotalOf(metadata) == |all| && forall position :: Slice(execute(position), metadata, all, position)
  }

  ghost predicate Slice(chunk: Chunk, metadata: Fields, all: seq<Row>, position: nat) {
    && chunk.Chunk? && chunk.metadata == metadata && chunk.offset == position
    && if position >= |all| then chunk.rows == []
       else chunk.rows != [] && position + |chunk.rows| <= |all| && chunk.rows == all[position..position + |chunk.rows|]
  }

  /** Rows are rows, and no metadata uses a page's own keys. */
  ghost predicate Orderly(execute: nat -> Chunk) {
    forall position :: execute(position).Chunk? ==>
      && (forall i :: 0 <= i < |execute(position).rows| ==> IsRow(execute(position).rows[i]))
      && forall limit: nat, offset: nat, maximum, session: string ::
           Plain(Base(execute(position).metadata, session, offset, limit, maximum))
  }

  /** The accumulator holds the stream from the offset to the position, and goes on from there. */
  ghost predicate Collected(c: Collection, all: seq<Row>, offset: nat, position: nat, rows: seq<Row>)
    requires c.Valid()
  {
    && offset <= position <= |all| == c.total && rows == all[offset..position]
    && Reach(c, all, offset, offset) == Reach(c, all, offset, position)
  }

  /** Offer the next row, for a page that would end with it. */
  method TakeRow(page: ReferenceGroups, c: Collection, row: Row, position: nat, ghost offset: nat, ghost all: seq<Row>,
                 ghost faithful: bool)
    returns (ok: bool)
    requires c.Valid() && page.Valid() && page.limitedBy == None && offset <= position && |page.rows| == position - offset
    requires IsRow(row)
    requires faithful ==> Collected(c, all, offset, position, page.rows) && position < |all| && row == all[position]
    modifies page
    ensures page.Valid() && (ok <==> page.limitedBy == None)
    ensures |page.rows| == if ok then position + 1 - offset else position - offset
    ensures faithful && ok ==> Collected(c, all, offset, position + 1, page.rows)
    ensures faithful && !ok ==> Collected(c, all, offset, position, page.rows)
    ensures faithful && !ok ==> Reach(c, all, offset, position) == Reached(position, page.limitedBy)
  {
    hide IsRow, Overhead, Reach, ReferenceGroups.Valid, Refusal, GroupsOf;
    var end, count := position + 1, page.sites + 1;
    SitesAreRows(page);
    if faithful {
      ReachStep(c, all, offset, position);
      assert all[offset..end] == all[offset..position] + [all[position]];
    }
    ok := page.Offer(row, Some(c.maximum - Overhead(c.base, c.codec, count, end, c.total)), Some(c.limit));
  }

  /** Offer the rows of one chunk until one is refused. */
  method TakeRows(page: ReferenceGroups, c: Collection, rows: seq<Row>, start: nat, ghost offset: nat,
                  ghost all: seq<Row>, ghost faithful: bool)
    returns (position: nat)
    requires c.Valid() && page.Valid() && page.limitedBy == None && offset <= start && |page.rows| == start - offset
    requires forall i :: 0 <= i < |rows| ==> IsRow(rows[i])
    requires faithful ==> Collected(c, all, offset, start, page.rows)
    requires faithful ==> start + |rows| <= |all| && rows == all[start..start + |rows|]
    modifies page
    ensures page.Valid() && offset <= start <= position <= start + |rows| && |page.rows| == position - offset
    ensures page.limitedBy == None ==> position == start + |rows|
    ensures faithful ==> Collected(c, all, offset, position, page.rows)
    ensures faithful && page.limitedBy.Some? ==> Reach(c, all, offset, position) == Reached(position, page.limitedBy)
  {
    hide IsRow, Reach, ReferenceGroups.Valid, Collection.Valid, Collected;
    position := start;
    for i := 0 to |rows|
      invariant page.Valid() && page.limitedBy == None && position == start + i && |page.rows| == position - offset
      invariant faithful ==> Collected(c, all, offset, position, page.rows)
    {
      var ok := TakeRow(page, c, rows[i], position, offset, all, faithful);
      if !ok {
        return;
      }
      position := position + 1;
    }
  }

  lemma SitesAreRows(page: ReferenceGroups)
    requires page.Valid()
    ensures page.sites == |page.rows| && page.groups == GroupsOf(page.rows)
  {
  }

  lemma ReachStep(c: Collection, all: seq<Row>, offset: nat, position: nat)
    requires c.Valid() && offset <= position < |all|
    ensures var refusal := Refusal(Between(all, offset, position), all[position],
                Some(c.maximum - Overhead(c.base, c.codec, position - offset + 1, position + 1, c.total)), Some(c.limit));
            Reach(c, all, offset, position) ==
            if refusal == None then Reach(c, all, offset, position + 1) else Reached(position, refusal)
  {
    hide Refusal, Overhead, Collection.Valid, Between;
  }

  function CollectionOf(codec: Codec, metadata: Fields, session: string, offset: nat, limit: nat, maximum: int): Collection {
    Collection(Base(metadata, session, offset, limit, maximum), codec, TotalOf(metadata), maximum, limit)
  }

  /** The page a stream has from an offset; an offset beyond its end belongs to another stream. */
  ghost predicate IsPage(r: PageResult, c: Collection, all: seq<Row>, offset: nat) {
    if offset > |all| then r == ReferenceChanged else c.Valid() && c.total == |all| && r == PageOf(c, all, offset)
  }

  /** Where a page starts; a cursor of another session or query starts nowhere. */
  function StartOf(codec: Codec, cursor: Option<string>): Option<nat>
    requires codec.Valid()
  {
    match cursor
    case None => Some(0)
    case Some(value) => Decode(codec, value)
  }

  lemma OrderlyAt(execute: nat -> Chunk, position: nat, session: string, offset: nat, limit: nat, maximum: int)
    requires Orderly(execute) && execute(position).Chunk?
    ensures Plain(Base(execute(position).metadata, session, offset, limit, maximum))
    ensures forall i :: 0 <= i < |execute(position).rows| ==> IsRow(execute(position).rows[i])
  {
  }

  lemma FaithfulAt(execute: nat -> Chunk, metadata: Fields, all: seq<Row>, position: nat)
    requires Faithful(execute, metadata, all)
    ensures execute(position).Chunk? && execute(position).metadata == metadata && execute(position).offset == position
    ensures position >= |all| ==> execute(position).rows == []
    ensures position < |all| ==>
              var rows := execute(position).rows;
              rows != [] && position + |rows| <= |all| && rows == all[position..position + |rows|]
    ensures TotalOf(metadata) == |all|
  {
    assert Slice(execute(position), metadata, all, position);
  }

  /** What the query asks of a page, whatever the stream. */
  datatype Ask = Ask(codec: Codec, session: string, offset: nat, limit: nat, maximum: int)
  {
    function Collection(metadata: Fields): Collection {
      CollectionOf(codec, metadata, session, offset, limit, maximum)
    }
  }

  /** Between chunks: the first metadata, once there is one, and the position. */
  datatype Progress = Progress(base: Option<Collection>, expected: Fields, position: nat)
  {
    function Left(): nat {
      if base == None || position > base.value.total then 0 else base.value.total - position
    }
  }

  /** What one chunk leads to. */
  datatype Step = Stop(result: PageResult) | More(progress: Progress) | Done(progress: Progress)

  /** Nothing has been refused so far. */
  ghost predicate Gathering(page: ReferenceGroups, ask: Ask, p: Progress)
    reads page
  {
    && page.Valid() && page.limitedBy == None && ask.offset <= p.position && |page.rows| == p.position - ask.offset
    && match p.base
       case None => p.position == ask.offset
       case Some(c) => c.Valid() && p.position < c.total && c == ask.Collection(p.expected)
  }

  ghost predicate Full(page: ReferenceGroups, ask: Ask, p: Progress)
    reads page
  {
    && p.base.Some? && p.base.value.Valid() && p.base.value == ask.Collection(p.expected)
    && page.Valid() && ask.offset <= p.position && |page.rows| == p.position - ask.offset
    && (page.limitedBy.Some? || p.position >= p.base.value.total)
  }

  /** The part that holds of chunks of one stream. */
  ghost predicate OnStream(page: ReferenceGroups, ask: Ask, p: Progress, metadata: Fields, all: seq<Row>)
    reads page
  {
    p.base.Some? ==>
      && p.expected == metadata && p.base.value.Valid()
      && Collected(p.base.value, all, ask.offset, p.position, page.rows)
      && (page.limitedBy.Some? ==>
            Reach(p.base.value, all, ask.offset, p.position) == Reached(p.position, page.limitedBy))
  }

  /** One chunk: held against the first metadata, the position and the total, and then offered
      row by row. */
  method TakeChunk(execute: nat -> Chunk, page: ReferenceGroups, ask: Ask, p: Progress, ghost metadata: Fields,
                   ghost all: seq<Row>)
    returns (step: Step)
    requires Orderly(execute) && ask.codec.Valid() && Gathering(page, ask, p)
    requires Faithful(execute, metadata, all) ==> OnStream(page, ask, p, metadata, all)
    modifies page
    ensures step.Stop? ==> !step.result.Page?
    ensures step.More? ==> Gathering(page, ask, step.progress)
    ensures step.More? ==> step.progress.base.Some? && (p.base.Some? ==> step.progress.Left() < p.Left())
    ensures step.Done? ==> Full(page, ask, step.progress)
    ensures Faithful(execute, metadata, all) ==>
              if step.Stop? then step.result == ReferenceChanged && ask.offset > |all|
              else OnStream(page, ask, step.progress, metadata, all) && step.progress.expected == metadata
  {
    hide Faithful, Orderly, IsRow, ReferenceGroups.Valid, Collection.Valid, Reach, Base, SameDict, Plain;
    ghost var faithful := Faithful(execute, metadata, all);
    var position := p.position;
    var chunk := execute(position);
    if faithful {
      FaithfulAt(execute, metadata, all, position);
      SameDictSelf(metadata);
      EmptyStart(ask.Collection(metadata), all, ask.offset);
    }
    if chunk.Failed? {
      return Stop(WorkerFailed);
    }
    OrderlyAt(execute, position, ask.session, ask.offset, ask.limit, ask.maximum);
    var expected, c := p.expected, ask.Collection(chunk.metadata);
    if p.base == None {
      expected := chunk.metadata;
      CollectionValid(c);
    } else {
      if !SameDict(chunk.metadata, expected) {
        return Stop(ReferenceChanged);
      }
      c := p.base.value;
    }
    if chunk.offset != position || position + |chunk.rows| > c.total || (chunk.rows == [] && position < c.total) {
      return Stop(ReferenceChanged);
    }
    if faithful {
      assert Collected(c, all, ask.offset, position, page.rows);
    }
    position := TakeRows(page, c, chunk.rows, position, ask.offset, all, faithful);
    var next := Progress(Some(c), expected, position);
    step := if page.limitedBy.Some? || position >= c.total then Done(next) else More(next);
  }

  lemma SameDictSelf(a: Fields)
    ensures SameDict(a, a)
  {
  }

  lemma EmptyStart(c: Collection, all: seq<Row>, offset: nat)
    ensures c.Valid() && offset <= |all| == c.total ==> Collected(c, all, offset, offset, [])
  {
    hide Reach;
    if offset <= |all| {
      assert all[offset..offset] == [];
    }
  }

  /** Collect one page from an arbitrary source of chunks. Whatever it answers, a page that is
      returned fits; if its chunks are slices of one stream, of whatever sizes, the page is the one
      the stream has from the offset. */
  method GroupedPage(execute: nat -> Chunk, codec: Codec, cursor: Option<string>, session: string, limit: nat,
                     maximum: int, ghost metadata: Fields, ghost all: seq<Row>)
    returns (r: PageResult)
    requires codec.Valid() && Orderly(execute)
    ensures StartOf(codec, cursor) == None ==> r == InvalidCursor
    ensures r.Page? ==> Size(Obj(r.response)) <= maximum && r.offset <= r.position
    ensures r.Page? ==> exists rows :: |rows| == r.position - r.offset && r.groups == GroupsOf(rows)
    ensures Faithful(execute, metadata, all) && StartOf(codec, cursor).Some? ==>
              var offset := StartOf(codec, cursor).value;
              IsPage(r, CollectionOf(codec, metadata, session, offset, limit, maximum), all, offset)
  {
    var start := StartOf(codec, cursor);
    if start == None {
      return InvalidCursor;
    }
    var ask := Ask(codec, session, start.value, limit, maximum);
    var page := new ReferenceGroups();
    var p := Progress(None, [], ask.offset);
    hide Faithful, Orderly, Base, ReferenceGroups.Valid, Size, StartOf, Reach, GroupsOf;
    while true
      invariant Gathering(page, ask, p)
      invariant Faithful(execute, metadata, all) ==> OnStream(page, ask, p, metadata, all)
      decreases if p.base == None then 1 else 0, p.Left()
    {
      var step := TakeChunk(execute, page, ask, p, metadata, all);
      if step.Stop? {
        return step.result;
      }
      p := step.progress;
      if step.Done? {
        break;
      }
    }
    r := FinishPage(page, p.base.value, ask.offset, p.position, all, Faithful(execute, metadata, all));
  }

  /** The response to what has been collected, if it fits. */
  method FinishPage(page: ReferenceGroups, c: Collection, offset: nat, position: nat, ghost all: seq<Row>,
                    ghost faithful: bool)
    returns (r: PageResult)
    requires c.Valid() && page.Valid() && offset <= position && |page.rows| == position - offset
    requires page.limitedBy.Some? || position >= c.total
    requires faithful ==> Collected(c, all, offset, position, page.rows)
    requires faithful && page.limitedBy.Some? ==> Reach(c, all, offset, position) == Reached(position, page.limitedBy)
    ensures faithful ==> IsPage(r, c, all, offset)
    ensures r.Page? ==> Size(Obj(r.response)) <= c.maximum && r.offset <= r.position
    ensures r.Page? ==> exists rows :: |rows| == r.position - r.offset && r.groups == GroupsOf(rows)
  {
    SitesAreRows(page);
    ReachEnd(c, all, offset);
    hide IsRow, ReferenceGroups.Valid, Size, Reach, Response, Collection.Valid, GroupsOf;
    if page.sites == 0 && offset < c.total {
      return ResponseLimit;
    }
    var response := Response(c.base, c.codec, page.groups, page.sites, position, c.total, LimitOf(page.limitedBy));
    r := if Size(Obj(response)) <= c.maximum then Page(offset, position, page.groups, response) else ResponseLimit;
  }

  lemma CollectionValid(c: Collection)
    ensures Plain(c.base) && c.codec.Valid() ==> c.Valid()
  {
  }

  lemma ReachEnd(c: Collection, all: seq<Row>, offset: nat)
    requires c.Valid()
    ensures offset <= |all| ==> Reach(c, all, offset, |all|) == Reached(|all|, None)
  {
  }

  // ---------------------------------------------------------------------------------------
  // A whole run
  // ---------------------------------------------------------------------------------------

  lemma {:induction false} GetDistinct(fields: Fields, i: nat)
    requires DistinctKeys(fields) && i < |fields|
    ensures Get(fields, fields[i].key) == Some(fields[i].value)
  {
    if i > 0 {
      GetDistinct(fields[1..], i - 1);
    }
  }

  /** A response names a continuation exactly when there is more, and it is the position's. */
  lemma ResponseCursor(base: Fields, codec: Codec, groups: seq<Group>, sites: nat, position: nat, total: nat, limit: Limit)
    requires codec.Valid()
    ensures Get(Response(base, codec, groups, sites, position, total, limit), "next_cursor") ==
            Some(if position < total then Text(Encode(codec, position)) else Null)
  {
    var next := if position < total then Num(position) else Null;
    var cursor := if position < total then Text(Encode(codec, position)) else Null;
    var own := Own(GroupsJson(groups), sites, position < total, next, cursor);
    OwnKeys(GroupsJson(groups), sites, position < total, next, cursor, limit);
    PrefixKeys(own, LimitedBy(limit));
    var all := own + [LimitedBy(limit)];
    assert own[5] == Field("next_cursor", cursor) && all[5] == own[5];
    hide Own, LimitedBy, DistinctKeys, Text, GroupsJson, PutAll, Get, Encode;
    GetDistinct(own, 5);
    GetDistinct(all, 5);
    GetPutAll(base, own, "next_cursor");
    GetPutAll(base, all, "next_cursor");
  }

  lemma TextInjective(a: string, b: string)
    requires Text(a) == Text(b)
    ensures a == b
  {
    assert forall i :: 0 <= i < |a| && i < |b| ==> Codes(a)[i] == a[i] as nat && Codes(b)[i] == b[i] as nat;
  }

  /** One request of a run: the cursor it came with, its own limits, and its page. */
  datatype Turn = Turn(cursor: Option<string>, c: Collection, page: PageResult)

  ghost predicate TurnOf(codec: Codec, all: seq<Row>, turn: Turn) {
    && turn.c.Valid() && turn.c.codec == codec && turn.c.total == |all|
    && turn.page.Page? && turn.page.offset <= |all| && turn.page == PageOf(turn.c, all, turn.page.offset)
    && StartOf(codec, turn.cursor) == Some(turn.page.offset)
  }

  /** The next request brings the cursor the last response named. */
  ghost predicate Continued(turn: Turn, next: Turn) {
    turn.page.Page? && next.cursor.Some? && Get(turn.page.response, "next_cursor") == Some(Text(next.cursor.value))
  }

  /** Requests from the first page on, each continuing the last, until none is named. */
  ghost predicate IsRun(codec: Codec, all: seq<Row>, turns: seq<Turn>) {
    && codec.Valid() && turns != [] && turns[0].cursor == None
    && (forall i :: 0 <= i < |turns| ==> TurnOf(codec, all, turns[i]))
    && (forall i, j :: 0 <= i < j < |turns| && j == i + 1 ==> Continued(turns[i], turns[j]))
    && Get(turns[|turns| - 1].page.response, "next_cursor") == Some(Null)
  }

  function RowsSeen(turns: seq<Turn>): seq<Row> {
    if turns == [] then []
    else
      var last := turns[|turns| - 1].page;
      RowsSeen(turns[..|turns| - 1]) + if last.Page? then Ungroup(last.groups) else []
  }

  lemma TurnEnds(codec: Codec, all: seq<Row>, turn: Turn)
    requires codec.Valid() && TurnOf(codec, all, turn)
    ensures turn.page.offset <= turn.page.position <= |all|
    ensures turn.page.groups == GroupsOf(all[turn.page.offset..turn.page.position])
    ensures turn.page.position > turn.page.offset || turn.page.offset == |all|
    ensures Get(turn.page.response, "next_cursor") ==
            Some(if turn.page.position < |all| then Text(Encode(codec, turn.page.position)) else Null)
  {
    var c, page := turn.c, turn.page;
    var reached := Reach(c, all, page.offset, page.offset);
    hide Reach, GroupsOf, Response, Size, StartOf, Get, Text, Encode;
    ResponseCursor(c.base, codec, page.groups, page.position - page.offset, page.position, |all|, LimitOf(reached.limit));
  }

  lemma NextStarts(codec: Codec, all: seq<Row>, turn: Turn, next: Turn)
    requires codec.Valid() && TurnOf(codec, all, turn) && TurnOf(codec, all, next) && Continued(turn, next)
    requires |all| <= OFFSETS
    ensures next.page.offset == turn.page.position < |all|
  {
    TurnEnds(codec, all, turn);
    hide PageOf, GroupsOf, Get, Decode, Encode, Text;
    TextIsNotNull(next.cursor.value);
    TextInjective(next.cursor.value, Encode(codec, turn.page.position));
    DecodeInverts(codec, turn.page.position);
  }

  lemma TextIsNotNull(s: string)
    ensures Text(s) != Null
  {
  }

  lemma SameJoin(a: seq<Row>, b: seq<Row>, x: seq<Row>, y: seq<Row>)
    requires SameRows(a, b) && SameRows(x, y)
    ensures SameRows(a + x, b + y)
  {
    hide SameFields;
  }

  lemma {:induction false} RunPrefix(codec: Codec, all: seq<Row>, turns: seq<Turn>, k: nat)
    requires IsRun(codec, all, turns) && 0 < k <= |turns| && |all| <= OFFSETS
    requires forall i :: 0 <= i < |all| ==> IsRow(all[i])
    ensures turns[k - 1].page.Page? && turns[k - 1].page.position <= |all|
    ensures SameRows(RowsSeen(turns[..k]), all[..turns[k - 1].page.position])
    ensures all != [] ==> k <= turns[k - 1].page.position
    ensures all == [] ==> k == 1
  {
    hide GroupsOf, PageOf, StartOf, Get, Text, Ungroup, SameRows, IsRow, Continued, TurnOf;
    var turn := turns[k - 1];
    assert TurnOf(codec, all, turn);
    TurnEnds(codec, all, turn);
    TurnIsPage(codec, all, turn);
    var page := turn.page;
    UngroupInvertsGroup(all[page.offset..page.position]);
    assert turns[..k][..k - 1] == turns[..k - 1];
    if k == 1 {
      FirstStart(codec, all, turn);
      assert RowsSeen(turns[..0]) == [];
      assert [] + Ungroup(page.groups) == Ungroup(page.groups);
      assert all[0..page.position] == all[..page.position];
    } else {
      RunPrefix(codec, all, turns, k - 1);
      assert TurnOf(codec, all, turns[k - 2]) && Continued(turns[k - 2], turns[k - 1]);
      NextStarts(codec, all, turns[k - 2], turn);
      SameJoin(RowsSeen(turns[..k - 1]), all[..page.offset], Ungroup(page.groups), all[page.offset..page.position]);
      assert all[..page.offset] + all[page.offset..page.position] == all[..page.position];
    }
  }

  lemma TurnIsPage(codec: Codec, all: seq<Row>, turn: Turn)
    requires codec.Valid() && TurnOf(codec, all, turn)
    ensures turn.page.Page?
  {
  }

  lemma FirstStart(codec: Codec, all: seq<Row>, turn: Turn)
    requires codec.Valid() && TurnOf(codec, all, turn) && turn.cursor == None
    ensures turn.page.offset == 0
  {
    hide PageOf;
  }

  /** Following the continuations returns the flat stream: every row once, in order, duplicates
      kept, whatever the limits of each request; and it takes no more requests than rows, or one
      for an empty stream. */
  lemma RunReturnsStream(codec: Codec, all: seq<Row>, turns: seq<Turn>)
    requires IsRun(codec, all, turns) && |all| <= OFFSETS
    requires forall i :: 0 <= i < |all| ==> IsRow(all[i])
    ensures SameRows(RowsSeen(turns), all)
    ensures |turns| <= if all == [] then 1 else |all|
  {
    hide *;
    var k := |turns|;
    RunEnds(codec, all, turns);
    RunPrefix(codec, all, turns, k);
    assert turns[..k] == turns && all[..|all|] == all;
  }

  lemma RunEnds(codec: Codec, all: seq<Row>, turns: seq<Turn>)
    requires IsRun(codec, all, turns)
    ensures turns != [] && turns[|turns| - 1].page.Page? && turns[|turns| - 1].page.position == |all|
  {
    var last := turns[|turns| - 1];
    assert TurnOf(codec, all, last);
    TurnEnds(codec, all, last);
    hide PageOf, GroupsOf, Get, Text, StartOf, Continued;
    TextIsNotNull(Encode(codec, last.page.position));
  }
}
