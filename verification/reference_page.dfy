/** Reference pages bounded in bytes: the longest prefix that fits, and offsets that go on from
    where it ends. */
module ReferencePages {
  import opened Bytes
  import opened JsonText

  datatype Reply = ResponseLimit | Reply(fields: Fields)

  function NumberAt(fields: Fields, key: string): int {
    match Get(fields, key)
    case Some(Num(n)) => n
    case _ => 0
  }

  function Natural(fields: Fields, key: string): nat {
    var n := NumberAt(fields, key);
    if n < 0 then 0 else n
  }

  function ItemsAt(fields: Fields): seq<Json> {
    match Get(fields, "items")
    case Some(Arr(items)) => items
    case _ => []
  }

  /** A successful page of references; anything else is passed on. */
  predicate IsPage(result: Fields) {
    && Get(result, "status") == Some(Text("ok"))
    && Get(result, "offset").Some? && Get(result, "limit").Some? && Get(result, "items").Some?
    && Get(result, "total").Some?
  }

  /** Fewer rows than asked for although there are more: the bytes ran out before. */
  predicate Limited(result: Fields) {
    NumberAt(result, "offset") + |ItemsAt(result)| < NumberAt(result, "total")
    && |ItemsAt(result)| < NumberAt(result, "limit")
  }

  function Labelled(fields: Fields, maximum: int): Fields {
    Put(Put(fields, "page_limited_by", Text("response_bytes")), "response_byte_limit", Num(maximum))
  }

  function Whole(result: Fields, maximum: int): Fields {
    if Limited(result) then Labelled(result, maximum) else result
  }

  /** The page cut to its first `count` rows. */
  function Shortened(whole: Fields, maximum: int, items: seq<Json>, next: nat): Fields {
    Labelled(Put(Put(Put(Put(whole, "items", Arr(items)), "has_more", Bool(true)), "truncated", Bool(true)),
                 "next_offset", Num(next)), maximum)
  }

  function First(whole: Fields, maximum: int, count: nat): Fields
    requires count <= |ItemsAt(whole)|
  {
    Shortened(whole, maximum, ItemsAt(whole)[..count], Natural(whole, "offset") + count)
  }

  ghost predicate Fits(whole: Fields, maximum: int, count: nat)
    requires count <= |ItemsAt(whole)|
  {
    Size(Obj(First(whole, maximum, count))) <= maximum
  }

  /** The most rows with which the cut page fits, if any. */
  ghost predicate Longest(whole: Fields, maximum: int, count: nat) {
    && count <= |ItemsAt(whole)|
    && (forall k :: 1 <= k <= count ==> Fits(whole, maximum, k))
    && forall k :: count < k <= |ItemsAt(whole)| ==> !Fits(whole, maximum, k)
  }

  const DISTINCT_NAMES := {"items", "has_more", "truncated", "next_offset", "page_limited_by", "response_byte_limit"}

  lemma NamesDiffer()
    ensures "items" != "has_more" && "items" != "truncated" && "items" != "next_offset"
    ensures "items" != "page_limited_by" && "items" != "response_byte_limit"
    ensures "has_more" != "truncated" && "has_more" != "next_offset" && "has_more" != "page_limited_by"
    ensures "has_more" != "response_byte_limit" && "truncated" != "next_offset" && "truncated" != "page_limited_by"
    ensures "truncated" != "response_byte_limit" && "next_offset" != "page_limited_by"
    ensures "next_offset" != "response_byte_limit" && "page_limited_by" != "response_byte_limit"
    ensures "offset" !in DISTINCT_NAMES && "total" !in DISTINCT_NAMES && "limit" !in DISTINCT_NAMES
  {
    assert |"items"| == 5 && |"has_more"| == 8 && |"truncated"| == 9 && |"next_offset"| == 11;
    assert |"page_limited_by"| == 15 && |"response_byte_limit"| == 19;
    assert |"offset"| == 6 && |"total"| == 5 && |"limit"| == 5;
    assert "total"[0] == 't' && "limit"[0] == 'l' && "items"[0] == 'i';
  }

  /** What a value takes in place of what was there, or with its key. */
  function Change(fields: Fields, key: string, value: Json): int {
    match Get(fields, key)
    case Some(before) => Size(value) - Size(before)
    case None => FieldSize(Field(key, value)) + 2
  }

  lemma PutChange(fields: Fields, key: string, value: Json)
    requires fields != []
    ensures Size(Obj(Put(fields, key, value))) == Size(Obj(fields)) + Change(fields, key, value)
    ensures Put(fields, key, value) != []
  {
    PutSize(fields, key, value);
  }

  lemma ChangeAfter(fields: Fields, other: string, value: Json, key: string, v: Json)
    requires key != other
    ensures Change(Put(fields, other, value), key, v) == Change(fields, key, v)
  {
    GetPut(fields, other, value, key);
  }

  lemma LabelledSize(fields: Fields, maximum: int)
    requires fields != []
    ensures Size(Obj(Labelled(fields, maximum))) == Size(Obj(fields))
            + Change(fields, "page_limited_by", Text("response_bytes")) + Change(fields, "response_byte_limit", Num(maximum))
  {
    NamesDiffer();
    hide Size, Change, Put, Text;
    var named := Put(fields, "page_limited_by", Text("response_bytes"));
    PutChange(fields, "page_limited_by", Text("response_bytes"));
    PutChange(named, "response_byte_limit", Num(maximum));
    ChangeAfter(fields, "page_limited_by", Text("response_bytes"), "response_byte_limit", Num(maximum));
  }

  /** The four assignments that cut a page. */
  function Cut(whole: Fields, items: seq<Json>, next: nat): Fields {
    Put(Put(Put(Put(whole, "items", Arr(items)), "has_more", Bool(true)), "truncated", Bool(true)), "next_offset", Num(next))
  }

  lemma CutSize(whole: Fields, items: seq<Json>, next: nat)
    requires whole != []
    ensures Cut(whole, items, next) != []
    ensures Size(Obj(Cut(whole, items, next))) == Size(Obj(whole)) + Change(whole, "items", Arr(items))
            + Change(whole, "has_more", Bool(true)) + Change(whole, "truncated", Bool(true))
            + Change(whole, "next_offset", Num(next))
  {
    NamesDiffer();
    hide Size, Change, Put;
    var a := Put(whole, "items", Arr(items));
    var b := Put(a, "has_more", Bool(true));
    var c := Put(b, "truncated", Bool(true));
    PutChange(whole, "items", Arr(items));
    PutChange(a, "has_more", Bool(true));
    PutChange(b, "truncated", Bool(true));
    PutChange(c, "next_offset", Num(next));
    ChangeAfter(whole, "items", Arr(items), "has_more", Bool(true));
    ChangeAfter(whole, "items", Arr(items), "truncated", Bool(true));
    ChangeAfter(a, "has_more", Bool(true), "truncated", Bool(true));
    ChangeAfter(whole, "items", Arr(items), "next_offset", Num(next));
    ChangeAfter(a, "has_more", Bool(true), "next_offset", Num(next));
    ChangeAfter(b, "truncated", Bool(true), "next_offset", Num(next));
  }

  lemma CutKeepsOthers(whole: Fields, items: seq<Json>, next: nat, key: string)
    requires key !in {"items", "has_more", "truncated", "next_offset"}
    ensures Get(Cut(whole, items, next), key) == Get(whole, key)
  {
    hide Put;
    var a := Put(whole, "items", Arr(items));
    var b := Put(a, "has_more", Bool(true));
    GetPut(whole, "items", Arr(items), key);
    GetPut(a, "has_more", Bool(true), key);
    GetPut(b, "truncated", Bool(true), key);
    GetPut(Put(b, "truncated", Bool(true)), "next_offset", Num(next), key);
  }

  /** The length of a cut page, from that of the page it was cut from. */
  lemma ShortenedSize(whole: Fields, maximum: int, items: seq<Json>, next: nat)
    requires whole != []
    ensures Size(Obj(Shortened(whole, maximum, items, next))) == Size(Obj(whole))
            + Change(whole, "items", Arr(items)) + Change(whole, "has_more", Bool(true))
            + Change(whole, "truncated", Bool(true)) + Change(whole, "next_offset", Num(next))
            + Change(whole, "page_limited_by", Text("response_bytes")) + Change(whole, "response_byte_limit", Num(maximum))
  {
    NamesDiffer();
    CutSize(whole, items, next);
    CutKeepsOthers(whole, items, next, "page_limited_by");
    CutKeepsOthers(whole, items, next, "response_byte_limit");
    LabelledSize(Cut(whole, items, next), maximum);
    hide Size, Put, Text, Get;
  }

  lemma ChangeDifference(fields: Fields, key: string, a: Json, b: Json)
    ensures Change(fields, key, a) - Change(fields, key, b) == Size(a) - Size(b)
  {
    hide Size, Quote;
  }

  lemma ListSize(items: seq<Json>)
    ensures Size(Arr(items)) == 2 + |ItemsText(items)| && ItemsText([]) == ""
  {
  }

  lemma NumberSize(n: nat)
    ensures Size(Num(n)) == |Digits(n)|
  {
  }

  lemma ShortenedDifference(whole: Fields, maximum: int, items: seq<Json>, next: nat, before: nat)
    requires whole != []
    ensures Size(Obj(Shortened(whole, maximum, items, next))) ==
            Size(Obj(Shortened(whole, maximum, [], before))) - |Digits(before)| + |ItemsText(items)| + |Digits(next)|
  {
    hide *;
    ShortenedSize(whole, maximum, items, next);
    ShortenedSize(whole, maximum, [], before);
    ChangeDifference(whole, "items", Arr(items), Arr([]));
    ChangeDifference(whole, "next_offset", Num(next), Num(before));
    ListSize(items);
    ListSize([]);
    NumberSize(next);
    NumberSize(before);
  }

  /** One more row makes a cut page longer by its text, its separator and any further digit. */
  lemma FirstSize(whole: Fields, maximum: int, count: nat)
    requires whole != [] && count <= |ItemsAt(whole)|
    ensures Size(Obj(First(whole, maximum, count))) ==
            Size(Obj(Shortened(whole, maximum, [], Natural(whole, "offset") + 1)))
            - |Digits(Natural(whole, "offset") + 1)|
            + |ItemsText(ItemsAt(whole)[..count])| + |Digits(Natural(whole, "offset") + count)|
  {
    var offset := Natural(whole, "offset");
    hide Size, Shortened, Digits, ItemsText, Natural, ItemsAt;
    ShortenedDifference(whole, maximum, ItemsAt(whole)[..count], offset + count, offset + 1);
  }

  lemma EmptyItems()
    ensures ItemsText([]) == ""
  {
  }

  lemma FirstGrows(whole: Fields, maximum: int, count: nat)
    requires whole != [] && count < |ItemsAt(whole)|
    ensures Size(Obj(First(whole, maximum, count))) <= Size(Obj(First(whole, maximum, count + 1)))
  {
    hide *;
    var items := ItemsAt(whole);
    FirstSize(whole, maximum, count);
    FirstSize(whole, maximum, count + 1);
    DigitsMonotone(Natural(whole, "offset") + count, Natural(whole, "offset") + count + 1);
    ItemsAppend(items[..count], items[count]);
    assert items[..count + 1] == items[..count] + [items[count]];
  }

  lemma {:induction false} FirstGrowsTo(whole: Fields, maximum: int, a: nat, b: nat)
    requires whole != [] && a <= b <= |ItemsAt(whole)|
    ensures Size(Obj(First(whole, maximum, a))) <= Size(Obj(First(whole, maximum, b)))
    decreases b
  {
    hide First, Size;
    if a < b {
      FirstGrowsTo(whole, maximum, a, b - 1);
      FirstGrows(whole, maximum, b - 1);
    }
  }

  // ---------------------------------------------------------------------------------------
  // The page
  // ---------------------------------------------------------------------------------------

  /** Count the rows that fit, adding up their text until the first that does not. */
  method CountRows(whole: Fields, maximum: int) returns (count: nat)
    requires whole != []
    ensures Longest(whole, maximum, count)
  {
    hide Size, Digits, First, Shortened, ItemsText, Natural, ItemsAt;
    var items, offset := ItemsAt(whole), Natural(whole, "offset");
    var header := Size(Obj(Shortened(whole, maximum, [], offset + 1))) - |Digits(offset + 1)|;
    var used := 0;
    count := 0;
    EmptyItems();
    assert items[..0] == [];
    for index := 1 to |items| + 1
      invariant count == index - 1 && used == |ItemsText(items[..count])|
      invariant forall k :: 1 <= k <= count ==> Fits(whole, maximum, k)
    {
      var row := items[index - 1];
      ItemsAppend(items[..count], row);
      assert items[..index] == items[..count] + [row];
      used := used + Size(row) + if index > 1 then 2 else 0;
      FirstSize(whole, maximum, index);
      if header + used + |Digits(offset + index)| > maximum {
        forall k | index <= k <= |items| ensures !Fits(whole, maximum, k) {
          FirstGrowsTo(whole, maximum, index, k);
        }
        return;
      }
      count := index;
    }
  }

  /** What the bounded page must be, in terms of lengths alone. */
  ghost predicate Bounded(result: Fields, maximum: int, r: Reply) {
    var whole := Whole(result, maximum);
    var bare := Without(whole, {"query_cache"});
    if !IsPage(result) then r == Reply(result)
    else if ItemsAt(result) == [] && NumberAt(result, "offset") < NumberAt(result, "total") then r == ResponseLimit
    else if Size(Obj(whole)) <= maximum then r == Reply(whole)
    else if Get(whole, "query_cache").Some? && Size(Obj(bare)) <= maximum then r == Reply(bare)
    else exists count :: Longest(whole, maximum, count)
                         && r == if count == 0 then ResponseLimit else Reply(First(whole, maximum, count))
  }

  method ReferencePage(result: Fields, allowed: int) returns (r: Reply)
    ensures var maximum := (if allowed < 262144 then allowed else 262144) - 1;
            Bounded(result, maximum, r) && (r.Reply? && IsPage(result) ==> Size(Obj(r.fields)) <= maximum)
  {
    var maximum := (if allowed < 262144 then allowed else 262144) - 1;
    if !IsPage(result) {
      return Reply(result);
    }
    if ItemsAt(result) == [] && NumberAt(result, "offset") < NumberAt(result, "total") {
      return ResponseLimit;
    }
    WholeIsSome(result, maximum);
    hide IsPage, Size, First, ItemsAt, NumberAt, Longest, Whole;
    var whole := Whole(result, maximum);
    if Size(Obj(whole)) <= maximum {
      return Reply(whole);
    }
    if Get(whole, "query_cache").Some? {
      var bare := Without(whole, {"query_cache"});
      if Size(Obj(bare)) <= maximum {
        return Reply(bare);
      }
    }
    var count := CountRows(whole, maximum);
    LongestFits(whole, maximum, count);
    r := if count == 0 then ResponseLimit else Reply(First(whole, maximum, count));
  }

  lemma LongestFits(whole: Fields, maximum: int, count: nat)
    requires Longest(whole, maximum, count)
    ensures count <= |ItemsAt(whole)| && (count > 0 ==> Size(Obj(First(whole, maximum, count))) <= maximum)
  {
    hide First;
    assert count > 0 ==> Fits(whole, maximum, count);
  }

  lemma WholeIsSome(result: Fields, maximum: int)
    requires IsPage(result)
    ensures Whole(result, maximum) != []
  {
  }

  // ---------------------------------------------------------------------------------------
  // Pages of one stream
  // ---------------------------------------------------------------------------------------

  /** A page says what the stream has: its rows are the stream's from its offset, and it has more
      exactly when rows follow, starting where it ends. */
  ghost predicate Truthful(page: Fields, all: seq<Json>) {
    var offset, items := Natural(page, "offset"), ItemsAt(page);
    && IsPage(page) && NumberAt(page, "offset") >= 0 && NumberAt(page, "total") == |all|
    && Get(page, "items") == Some(Arr(items))
    && (if offset + |items| <= |all| then items == all[offset..offset + |items|] else items == [])
    && (items != [] || offset >= |all|)
    && Get(page, "has_more") == Some(Bool(offset + |items| < |all|))
    && Get(page, "truncated") == Some(Bool(offset + |items| < |all|))
    && Get(page, "next_offset") == Some(if offset + |items| < |all| then Num(offset + |items|) else Null)
  }

  /** No label is there that this step would not put there itself. */
  ghost predicate Unlabelled(page: Fields, maximum: int) {
    && (Get(page, "page_limited_by") == None ||
        (Limited(page) && Get(page, "page_limited_by") == Some(Text("response_bytes"))))
    && (Get(page, "response_byte_limit") == None ||
        (Limited(page) && Get(page, "response_byte_limit") == Some(Num(maximum))))
  }

  lemma LabelledGet(fields: Fields, maximum: int, key: string)
    ensures Get(Labelled(fields, maximum), key) ==
            if key == "response_byte_limit" then Some(Num(maximum))
            else if key == "page_limited_by" then Some(Text("response_bytes")) else Get(fields, key)
  {
    hide Put, Text;
    GetPut(fields, "page_limited_by", Text("response_bytes"), key);
    GetPut(Put(fields, "page_limited_by", Text("response_bytes")), "response_byte_limit", Num(maximum), key);
  }

  /** Pages that agree on what a page says. */
  ghost predicate Agree(a: Fields, b: Fields) {
    && Get(a, "status") == Get(b, "status") && Get(a, "offset") == Get(b, "offset") && Get(a, "limit") == Get(b, "limit")
    && Get(a, "items") == Get(b, "items") && Get(a, "total") == Get(b, "total")
    && Get(a, "has_more") == Get(b, "has_more") && Get(a, "truncated") == Get(b, "truncated")
    && Get(a, "next_offset") == Get(b, "next_offset")
  }

  lemma AgreeIsTruthful(a: Fields, b: Fields, all: seq<Json>)
    requires Agree(a, b) && Truthful(a, all)
    ensures Truthful(b, all)
  {
    hide Get, Text;
  }

  const PAGE_KEYS := {"status", "offset", "limit", "items", "total", "has_more", "truncated", "next_offset"}

  lemma PageKeysApart(key: string)
    requires key in PAGE_KEYS
    ensures key != "page_limited_by" && key != "response_byte_limit" && key != "query_cache"
  {
    assert |key| <= 11;
    assert |"page_limited_by"| == 15 && |"response_byte_limit"| == 19 && |"query_cache"| == 11;
    assert |key| == 11 ==> key == "next_offset";
    assert "next_offset"[0] == 'n' && "query_cache"[0] == 'q';
  }

  lemma PageKeysGet(key: string, whole: Fields, maximum: int)
    requires key in PAGE_KEYS
    ensures Get(Labelled(whole, maximum), key) == Get(whole, key)
    ensures Get(Without(whole, {"query_cache"}), key) == Get(whole, key)
  {
    hide Labelled;
    PageKeysApart(key);
    LabelledGet(whole, maximum, key);
    GetWithout(whole, {"query_cache"}, key);
  }

  lemma LabelsAgree(whole: Fields, maximum: int)
    ensures Agree(whole, Labelled(whole, maximum)) && Agree(whole, Without(whole, {"query_cache"}))
  {
    hide Labelled, Without, Get;
    PageKeysGet("status", whole, maximum);
    PageKeysGet("offset", whole, maximum);
    PageKeysGet("limit", whole, maximum);
    PageKeysGet("items", whole, maximum);
    PageKeysGet("total", whole, maximum);
    PageKeysGet("has_more", whole, maximum);
    PageKeysGet("truncated", whole, maximum);
    PageKeysGet("next_offset", whole, maximum);
  }

  /** What a cut page says. */
  lemma CutGet(whole: Fields, items: seq<Json>, next: nat, key: string)
    ensures Get(Cut(whole, items, next), key) ==
            if key == "next_offset" then Some(Num(next))
            else if key == "truncated" || key == "has_more" then Some(Bool(true))
            else if key == "items" then Some(Arr(items)) else Get(whole, key)
  {
    hide Put, Get;
    var a := Put(whole, "items", Arr(items));
    var b := Put(a, "has_more", Bool(true));
    GetPut(whole, "items", Arr(items), key);
    GetPut(a, "has_more", Bool(true), key);
    GetPut(b, "truncated", Bool(true), key);
    GetPut(Put(b, "truncated", Bool(true)), "next_offset", Num(next), key);
  }

  lemma CutIsTruthful(whole: Fields, all: seq<Json>, count: nat)
    requires Truthful(whole, all) && 1 <= count < |ItemsAt(whole)|
    ensures Truthful(Cut(whole, ItemsAt(whole)[..count], Natural(whole, "offset") + count), all)
  {
    var items, offset := ItemsAt(whole), Natural(whole, "offset");
    var after := Cut(whole, items[..count], offset + count);
    CutGets(whole, items[..count], offset + count);
    hide Cut, Get, Text;
    assert ItemsAt(after) == items[..count];
    assert all[offset..offset + count] == all[offset..offset + |items|][..count];
  }

  lemma CutGets(whole: Fields, items: seq<Json>, next: nat)
    ensures var after := Cut(whole, items, next);
            && Get(after, "status") == Get(whole, "status") && Get(after, "offset") == Get(whole, "offset")
            && Get(after, "limit") == Get(whole, "limit") && Get(after, "total") == Get(whole, "total")
            && Get(after, "items") == Some(Arr(items)) && Get(after, "has_more") == Some(Bool(true))
            && Get(after, "truncated") == Some(Bool(true)) && Get(after, "next_offset") == Some(Num(next))
  {
    NamesDiffer();
    assert |"status"| == 6;
    hide Cut, Get;
    CutGet(whole, items, next, "status");
    CutGet(whole, items, next, "offset");
    CutGet(whole, items, next, "limit");
    CutGet(whole, items, next, "total");
    CutGet(whole, items, next, "items");
    CutGet(whole, items, next, "has_more");
    CutGet(whole, items, next, "truncated");
    CutGet(whole, items, next, "next_offset");
  }

  lemma LabelGrows(whole: Fields, key: string, value: Json)
    requires Get(whole, key) == None || Get(whole, key) == Some(value)
    ensures if Get(whole, key) == None then Change(whole, key, value) >= 6 else Change(whole, key, value) == 0
  {
    hide Escaped, Size;
  }

  lemma SmallValues()
    ensures Size(Bool(true)) == 4 && Size(Bool(false)) == 5 && Size(Null) == 4
  {
  }

  lemma NumberIsLong(n: nat)
    ensures Size(Num(n)) >= 1
  {
  }

  lemma RowChanges(whole: Fields, all: seq<Json>)
    requires Truthful(whole, all)
    ensures var items, next := ItemsAt(whole), Natural(whole, "offset") + |ItemsAt(whole)|;
            Change(whole, "items", Arr(items)) + Change(whole, "has_more", Bool(true))
            + Change(whole, "truncated", Bool(true)) + Change(whole, "next_offset", Num(next))
            >= if next < |all| then 0 else -5
  {
    SmallValues();
    NumberIsLong(Natural(whole, "offset") + |ItemsAt(whole)|);
    hide Size, Get, Text, IsPage;
  }

  lemma LabelChanges(whole: Fields, all: seq<Json>, maximum: int)
    requires Truthful(whole, all) && Unlabelled(whole, maximum)
    ensures Change(whole, "page_limited_by", Text("response_bytes")) + Change(whole, "response_byte_limit", Num(maximum))
            >= if Natural(whole, "offset") + |ItemsAt(whole)| < |all| then 0 else 12
  {
    LabelGrows(whole, "page_limited_by", Text("response_bytes"));
    LabelGrows(whole, "response_byte_limit", Num(maximum));
    hide Size, Get, Text, IsPage, Change;
  }

  /** A page with all its rows that claims there is more is never shorter than the page itself. */
  lemma CutWithAllIsLonger(whole: Fields, all: seq<Json>, maximum: int)
    requires Truthful(whole, all) && Unlabelled(whole, maximum)
    ensures Size(Obj(First(whole, maximum, |ItemsAt(whole)|))) >= Size(Obj(whole))
  {
    var items, offset := ItemsAt(whole), Natural(whole, "offset");
    TruthfulPage(whole, all);
    WholeIsSome(whole, maximum);
    assert First(whole, maximum, |items|) == Shortened(whole, maximum, items, offset + |items|) by {
      hide Shortened, Natural, ItemsAt;
      assert items[..|items|] == items;
    }
    PageHasFields(whole);
    hide *;
    ShortenedSize(whole, maximum, items, offset + |items|);
    RowChanges(whole, all);
    LabelChanges(whole, all, maximum);
  }

  lemma PageHasFields(page: Fields)
    requires IsPage(page)
    ensures page != []
  {
  }

  lemma WholeIsTruthful(result: Fields, all: seq<Json>, maximum: int)
    requires Truthful(result, all) && Unlabelled(result, maximum)
    ensures Truthful(Whole(result, maximum), all) && Unlabelled(Whole(result, maximum), maximum)
    ensures Natural(Whole(result, maximum), "offset") == Natural(result, "offset")
    ensures ItemsAt(Whole(result, maximum)) == ItemsAt(result)
  {
    var whole := Whole(result, maximum);
    LabelsAgree(result, maximum);
    LabelledGet(result, maximum, "page_limited_by");
    LabelledGet(result, maximum, "response_byte_limit");
    NamesDiffer();
    hide Labelled, Get, Truthful, Text;
    assert Agree(result, whole);
    AgreeIsTruthful(result, whole, all);
  }

  lemma FirstIsTruthful(whole: Fields, all: seq<Json>, maximum: int, count: nat)
    requires Truthful(whole, all) && 1 <= count < |ItemsAt(whole)|
    ensures Truthful(First(whole, maximum, count), all)
    ensures Natural(First(whole, maximum, count), "offset") == Natural(whole, "offset")
    ensures ItemsAt(First(whole, maximum, count)) == ItemsAt(whole)[..count]
  {
    hide *;
    var cut := Cut(whole, ItemsAt(whole)[..count], Natural(whole, "offset") + count);
    FirstIsCut(whole, maximum, count);
    CutIsTruthful(whole, all, count);
    LabelsAgree(cut, maximum);
    AgreeIsTruthful(cut, Labelled(cut, maximum), all);
    AgreeOnRows(cut, Labelled(cut, maximum));
    CutRows(whole, ItemsAt(whole)[..count], Natural(whole, "offset") + count);
  }

  lemma FirstIsCut(whole: Fields, maximum: int, count: nat)
    requires count <= |ItemsAt(whole)|
    ensures First(whole, maximum, count) ==
            Labelled(Cut(whole, ItemsAt(whole)[..count], Natural(whole, "offset") + count), maximum)
  {
    hide Labelled, Put;
  }

  lemma CutRows(whole: Fields, items: seq<Json>, next: nat)
    ensures ItemsAt(Cut(whole, items, next)) == items
            && Natural(Cut(whole, items, next), "offset") == Natural(whole, "offset")
  {
    CutGets(whole, items, next);
    hide Cut, Get;
  }

  /** Bounding a truthful page keeps it truthful: it never claims more after the last row, its
      rows are still the stream's from its offset, and the next offset is where they end. */
  lemma BoundedIsTruthful(result: Fields, all: seq<Json>, maximum: int, r: Reply)
    requires Truthful(result, all) && Unlabelled(result, maximum) && Bounded(result, maximum, r)
    ensures r.Reply? ==> Truthful(r.fields, all) && Natural(r.fields, "offset") == Natural(result, "offset")
    ensures r.Reply? ==> ItemsAt(r.fields) <= ItemsAt(result) && (ItemsAt(result) != [] ==> ItemsAt(r.fields) != [])
  {
    var whole := Whole(result, maximum);
    WholeIsTruthful(result, all, maximum);
    LabelsAgree(whole, maximum);
    AgreeIsTruthful(whole, Without(whole, {"query_cache"}), all);
    AgreeOnRows(whole, Without(whole, {"query_cache"}));
    CutWithAllIsLonger(whole, all, maximum);
    TruthfulPage(result, all);
    hide Whole, Truthful, IsPage, Agree, Without, Get, Unlabelled, ItemsAt, NumberAt, Natural, First, Size;
    if r.Reply? && r != Reply(whole) && r != Reply(Without(whole, {"query_cache"})) {
      var count :| Longest(whole, maximum, count)
                   && r == if count == 0 then ResponseLimit else Reply(First(whole, maximum, count));
      LongestIsShort(whole, maximum, count);
      FirstIsTruthful(whole, all, maximum, count);
    }
  }

  lemma TruthfulPage(result: Fields, all: seq<Json>)
    requires Truthful(result, all)
    ensures IsPage(result)
  {
  }

  lemma AgreeOnRows(a: Fields, b: Fields)
    requires Agree(a, b)
    ensures ItemsAt(a) == ItemsAt(b) && Natural(a, "offset") == Natural(b, "offset")
  {
    hide Get;
  }

  lemma LongestIsShort(whole: Fields, maximum: int, count: nat)
    requires Longest(whole, maximum, count) && Size(Obj(whole)) > maximum && count > 0
    requires Size(Obj(First(whole, maximum, |ItemsAt(whole)|))) >= Size(Obj(whole))
    ensures count < |ItemsAt(whole)|
  {
    hide First, Size;
    assert Fits(whole, maximum, count);
    assert !Fits(whole, maximum, |ItemsAt(whole)|);
  }

  // ---------------------------------------------------------------------------------------
  // What a query answers
  // ---------------------------------------------------------------------------------------

  function Least(a: nat, b: nat): nat {
    if a <= b then a else b
  }

  function Slice(all: seq<Json>, offset: nat, limit: nat): seq<Json> {
    all[Least(offset, |all|)..Least(offset + limit, |all|)]
  }

  /** A request for one page, what the query found for it, and the bytes the reply may take. */
  datatype Request = Request(offset: Option<nat>, limit: Option<nat>, maxPage: nat, allowed: int, found: Fields)
  {
    function Offset(): nat {
      match offset
      case Some(n) => n
      case None => 0
    }

    /** The rows the query collects. */
    function Collected(): nat {
      Least(match limit case Some(n) => n case None => 100, maxPage)
    }

    /** The limit the page names. */
    function Named(): nat {
      Least(match limit case Some(n) => n case None => maxPage, maxPage)
    }

    function Maximum(): int {
      (if allowed < 262144 then allowed else 262144) - 1
    }
  }

  /** The page made of what was found: the next offset is the limit further on. */
  function PageResult(rq: Request): Fields {
    var more := rq.Offset() + |ItemsAt(rq.found)| < NumberAt(rq.found, "total");
    Put(Put(Put(Put(Put(rq.found, "offset", Num(rq.Offset())), "limit", Num(rq.Named())), "has_more", Bool(more)),
            "truncated", Bool(more)),
        "next_offset", if more then Num(rq.Offset() + rq.Named()) else Null)
  }

  /** The rows found are the stream's from the offset on, and the total is the stream's length. */
  ghost predicate FoundPart(rq: Request, all: seq<Json>) {
    && Get(rq.found, "status") == Some(Text("ok")) && Get(rq.found, "total") == Some(Num(|all|))
    && Get(rq.found, "items") == Some(Arr(ItemsAt(rq.found)))
    && ItemsAt(rq.found) == Slice(all, rq.Offset(), |ItemsAt(rq.found)|)
  }

  lemma PageResultGet(rq: Request, key: string)
    ensures var more := rq.Offset() + |ItemsAt(rq.found)| < NumberAt(rq.found, "total");
            Get(PageResult(rq), key) ==
            if key == "next_offset" then Some(if more then Num(rq.Offset() + rq.Named()) else Null)
            else if key == "truncated" || key == "has_more" then Some(Bool(more))
            else if key == "limit" then Some(Num(rq.Named()))
            else if key == "offset" then Some(Num(rq.Offset())) else Get(rq.found, key)
  {
    hide Put, Get, NumberAt, ItemsAt;
    var more := rq.Offset() + |ItemsAt(rq.found)| < NumberAt(rq.found, "total");
    var a := Put(rq.found, "offset", Num(rq.Offset()));
    var b := Put(a, "limit", Num(rq.Named()));
    var c := Put(b, "has_more", Bool(more));
    var d := Put(c, "truncated", Bool(more));
    GetPut(rq.found, "offset", Num(rq.Offset()), key);
    GetPut(a, "limit", Num(rq.Named()), key);
    GetPut(b, "has_more", Bool(more), key);
    GetPut(c, "truncated", Bool(more), key);
    GetPut(d, "next_offset", if more then Num(rq.Offset() + rq.Named()) else Null, key);
  }

  lemma PageResultGets(rq: Request)
    ensures var page := PageResult(rq);
            var more := rq.Offset() + |ItemsAt(rq.found)| < NumberAt(rq.found, "total");
            && Get(page, "status") == Get(rq.found, "status") && Get(page, "items") == Get(rq.found, "items")
            && Get(page, "total") == Get(rq.found, "total") && Get(page, "offset") == Some(Num(rq.Offset()))
            && Get(page, "limit") == Some(Num(rq.Named())) && Get(page, "has_more") == Some(Bool(more))
            && Get(page, "truncated") == Some(Bool(more))
            && Get(page, "next_offset") == Some(if more then Num(rq.Offset() + rq.Named()) else Null)
            && Get(page, "page_limited_by") == Get(rq.found, "page_limited_by")
            && Get(page, "response_byte_limit") == Get(rq.found, "response_byte_limit")
  {
    NamesDiffer();
    assert |"status"| == 6 && "status"[0] == 's' && "offset"[0] == 'o';
    hide PageResult, Get, NumberAt, ItemsAt;
    PageResultGet(rq, "status");
    PageResultGet(rq, "items");
    PageResultGet(rq, "total");
    PageResultGet(rq, "offset");
    PageResultGet(rq, "limit");
    PageResultGet(rq, "has_more");
    PageResultGet(rq, "truncated");
    PageResultGet(rq, "next_offset");
    PageResultGet(rq, "page_limited_by");
    PageResultGet(rq, "response_byte_limit");
  }

  /** Exactly when a page made this way is truthful: no row is left, or as many rows were found as
      the limit it names, and some. */
  lemma PageIsTruthfulExactly(rq: Request, all: seq<Json>)
    requires FoundPart(rq, all)
    ensures Truthful(PageResult(rq), all) <==>
            rq.Offset() + |ItemsAt(rq.found)| >= |all| || 0 < |ItemsAt(rq.found)| == rq.Named()
  {
    PageResultGets(rq);
    hide PageResult, Get, Text, Request.Named, Request.Offset;
    var offset, items := rq.Offset(), ItemsAt(rq.found);
    assert ItemsAt(PageResult(rq)) == items && Natural(PageResult(rq), "offset") == offset;
    assert offset + |items| <= |all| ==> items == all[offset..offset + |items|];
    assert |items| > 0 ==> offset + |items| <= |all|;
  }

  /** What the query collects. */
  ghost predicate Finds(rq: Request, all: seq<Json>) {
    && Get(rq.found, "status") == Some(Text("ok")) && Get(rq.found, "total") == Some(Num(|all|))
    && Get(rq.found, "items") == Some(Arr(Slice(all, rq.Offset(), rq.Collected())))
    && Get(rq.found, "page_limited_by") == None && Get(rq.found, "response_byte_limit") == None
  }

  /** The limit named is the limit collected to, or nothing is left behind what was collected. */
  ghost predicate Steady(rq: Request, all: seq<Json>) {
    rq.Offset() + rq.Collected() >= |all| || 0 < rq.Collected() == rq.Named()
  }

  /** A query's page is truthful exactly when the limits agree or nothing is left. They differ only
      when no limit is given and pages may hold more than a hundred rows. */
  lemma QueryPageExactly(rq: Request, all: seq<Json>)
    requires Finds(rq, all)
    ensures Truthful(PageResult(rq), all) <==> Steady(rq, all)
    ensures rq.Collected() == rq.Named() <==> rq.limit.Some? || rq.maxPage <= 100
  {
    hide Get, Text;
    var items := ItemsAt(rq.found);
    assert items == Slice(all, rq.Offset(), rq.Collected()) == Slice(all, rq.Offset(), |items|);
    PageIsTruthfulExactly(rq, all);
  }

  /** Such a query: a query that names no limit collects up to a hundred rows (native_dex.py:512) but is
      paged by the page size of the session (native_dex.py:486), so with larger pages the next offset
      passes over rows no page has. A query that names a limit is not affected. */
  lemma UnstatedLimitSkips(rq: Request, all: seq<Json>)
    requires Finds(rq, all) && rq.limit == None && rq.maxPage > 100 && rq.Offset() + 100 < |all|
    ensures |ItemsAt(rq.found)| == 100 && Get(PageResult(rq), "next_offset") == Some(Num(rq.Offset() + rq.maxPage))
  {
    PageResultGets(rq);
  }

  // ---------------------------------------------------------------------------------------
  // A run of requests
  // ---------------------------------------------------------------------------------------

  /** A request answered with a page: what the query found, made a page, bounded in bytes. */
  ghost predicate Served(rq: Request, all: seq<Json>, page: Fields) {
    Finds(rq, all) && Bounded(PageResult(rq), rq.Maximum(), Reply(page))
  }

  lemma ServedIsTruthful(rq: Request, all: seq<Json>, page: Fields)
    requires Served(rq, all, page) && Steady(rq, all)
    ensures Truthful(page, all) && Natural(page, "offset") == rq.Offset()
  {
    QueryPageExactly(rq, all);
    PageResultGets(rq);
    assert Natural(PageResult(rq), "offset") == rq.Offset();
    assert Unlabelled(PageResult(rq), rq.Maximum());
    hide *;
    BoundedIsTruthful(PageResult(rq), all, rq.Maximum(), Reply(page));
  }

  /** Requests, each answered with a page and each but the first for the next offset of the page
      before, to the last page. */
  ghost predicate IsRun(all: seq<Json>, requests: seq<Request>, pages: seq<Fields>) {
    && pages != [] && |requests| == |pages| && requests[0].Offset() == 0
    && (forall i :: 0 <= i < |pages| ==> Served(requests[i], all, pages[i]) && Steady(requests[i], all))
    && (forall i, j :: 0 <= i < j < |pages| && j == i + 1 ==> Follows(pages[i], requests[j]))
    && Get(pages[|pages| - 1], "has_more") == Some(Bool(false))
  }

  ghost predicate Follows(page: Fields, next: Request) {
    Get(page, "has_more") == Some(Bool(true)) && Get(page, "next_offset") == Some(Num(next.Offset()))
  }

  function AllItems(pages: seq<Fields>): seq<Json> {
    if pages == [] then [] else AllItems(pages[..|pages| - 1]) + ItemsAt(pages[|pages| - 1])
  }

  lemma TruthfulSpan(page: Fields, all: seq<Json>)
    requires Truthful(page, all) && Natural(page, "offset") <= |all|
    ensures var offset, end := Natural(page, "offset"), Natural(page, "offset") + |ItemsAt(page)|;
            end <= |all| && ItemsAt(page) == all[offset..end]
  {
    hide Get, IsPage;
  }

  lemma TruthfulFollows(page: Fields, next: Request, all: seq<Json>)
    requires Truthful(page, all) && Follows(page, next)
    ensures Natural(page, "offset") < next.Offset() == Natural(page, "offset") + |ItemsAt(page)| < |all|
  {
    hide Get, IsPage;
  }

  lemma TruthfulLast(page: Fields, all: seq<Json>)
    requires Truthful(page, all) && Get(page, "has_more") == Some(Bool(false))
    ensures Natural(page, "offset") + |ItemsAt(page)| >= |all|
  {
    hide Get, IsPage;
  }

  lemma AllItemsStep(pages: seq<Fields>, k: nat)
    requires 0 < k <= |pages|
    ensures AllItems(pages[..k]) == AllItems(pages[..k - 1]) + ItemsAt(pages[k - 1])
    ensures AllItems(pages[..0]) == []
  {
    assert pages[..k][..k - 1] == pages[..k - 1];
  }

  lemma RunLinks(all: seq<Json>, requests: seq<Request>, pages: seq<Fields>, k: nat)
    requires IsRun(all, requests, pages) && k < |pages|
    ensures |requests| == |pages| && Truthful(pages[k], all) && Natural(pages[k], "offset") == requests[k].Offset()
    ensures if k == 0 then requests[k].Offset() == 0 else Follows(pages[k - 1], requests[k])
  {
    ServedIsTruthful(requests[k], all, pages[k]);
    hide Truthful, Follows, Get, Served, Steady;
  }

  lemma {:induction false} RunPrefix(all: seq<Json>, requests: seq<Request>, pages: seq<Fields>, k: nat)
    requires IsRun(all, requests, pages) && 0 < k <= |pages|
    ensures var end := Natural(pages[k - 1], "offset") + |ItemsAt(pages[k - 1])|;
            end <= |all| && AllItems(pages[..k]) == all[..end]
    ensures |requests| == |pages| && k - 1 <= requests[k - 1].Offset() && (k > 1 ==> requests[k - 1].Offset() < |all|)
  {
    hide *;
    RunLinks(all, requests, pages, k - 1);
    AllItemsStep(pages, k);
    if k > 1 {
      RunPrefix(all, requests, pages, k - 1);
      RunLinks(all, requests, pages, k - 2);
      TruthfulFollows(pages[k - 2], requests[k - 1], all);
    }
    TruthfulSpan(pages[k - 1], all);
  }

  lemma RunEnds(all: seq<Json>, requests: seq<Request>, pages: seq<Fields>)
    requires IsRun(all, requests, pages)
    ensures pages != [] && Get(pages[|pages| - 1], "has_more") == Some(Bool(false))
  {
    hide Served, Steady, Follows, Get;
  }

  /** Following the next offsets visits every row once, in order, whatever the limits of each
      request and wherever its reply was cut, in no more requests than rows. */
  lemma RunCoversStream(all: seq<Json>, requests: seq<Request>, pages: seq<Fields>)
    requires IsRun(all, requests, pages)
    ensures AllItems(pages) == all && (|pages| == 1 || |pages| <= |all|)
  {
    hide *;
    RunEnds(all, requests, pages);
    RunLinks(all, requests, pages, |pages| - 1);
    RunPrefix(all, requests, pages, |pages|);
    TruthfulLast(pages[|pages| - 1], all);
    assert pages[..|pages|] == pages;
    assert all[..|all|] == all;
  }
}
