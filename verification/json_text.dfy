/** JSON values and the exact text the encoder writes for them, so that its length is a
    consequence and not an assumption. */
module JsonText {
  import opened Bytes

  /** A string is its code points, lone surrogates included; an object keeps the order of its keys. */
  datatype Json =
    | Null
    | Bool(value: bool)
    | Num(number: int)
    | Str(text: seq<nat>)
    | Arr(items: seq<Json>)
    | Obj(fields: Fields)

  datatype Field = Field(key: string, value: Json)

  type Fields = seq<Field>

  // ---------------------------------------------------------------------------------------
  // Text
  // ---------------------------------------------------------------------------------------

  function Digit(n: nat): char
    requires n < 10
  {
    '0' + n as char
  }

  function Digits(n: nat): (r: string)
    ensures r != []
  {
    if n < 10 then [Digit(n)] else Digits(n / 10) + [Digit(n % 10)]
  }

  function Number(n: int): string {
    if n < 0 then "-" + Digits(-n) else Digits(n)
  }

  function HexDigit(n: nat): char
    requires n < 16
  {
    if n < 10 then '0' + n as char else 'a' + (n - 10) as char
  }

  function Unit(n: nat): (r: string)
    ensures |r| == 6
  {
    ['\\', 'u', HexDigit(n / 4096 % 16), HexDigit(n / 256 % 16), HexDigit(n / 16 % 16), HexDigit(n % 16)]
  }

  /** One code point, in ASCII only. */
  function Escape(c: nat): string {
    if c == 34 then "\\\"" else if c == 92 then "\\\\"
    else if c == 10 then "\\n" else if c == 13 then "\\r" else if c == 9 then "\\t"
    else if c == 8 then "\\b" else if c == 12 then "\\f"
    else if 32 <= c < 127 then [c as char]
    else if c < 0x1_0000 then Unit(c)
    else Unit(0xD800 + (c - 0x1_0000) / 1024) + Unit(0xDC00 + (c - 0x1_0000) % 1024)
  }

  function Escaped(text: seq<nat>): string {
    if text == [] then "" else Escape(text[0]) + Escaped(text[1..])
  }

  function Quote(text: seq<nat>): string {
    "\"" + Escaped(text) + "\""
  }

  function Codes(s: string): (r: seq<nat>)
    ensures |r| == |s|
  {
    seq(|s|, i requires 0 <= i < |s| => s[i] as nat)
  }

  /** A string of the program as a value. */
  function Text(s: string): Json {
    Str(Codes(s))
  }

  /** The encoder's default text: ", " between items and ": " after a key. */
  function Dumps(j: Json): string
    decreases j
  {
    match j
    case Null => "null"
    case Bool(value) => if value then "true" else "false"
    case Num(number) => Number(number)
    case Str(text) => Quote(text)
    case Arr(items) => "[" + ItemsText(items) + "]"
    case Obj(fields) => "{" + FieldsText(fields) + "}"
  }

  function ItemsText(items: seq<Json>): string
    decreases items
  {
    if items == [] then ""
    else if |items| == 1 then Dumps(items[0])
    else Dumps(items[0]) + ", " + ItemsText(items[1..])
  }

  function FieldsText(fields: Fields): string
    decreases fields
  {
    if fields == [] then ""
    else if |fields| == 1 then Quote(Codes(fields[0].key)) + ": " + Dumps(fields[0].value)
    else Quote(Codes(fields[0].key)) + ": " + Dumps(fields[0].value) + ", " + FieldsText(fields[1..])
  }

  // ---------------------------------------------------------------------------------------
  // Length
  // ---------------------------------------------------------------------------------------

  /** The encoded length; the text is ASCII, so characters are bytes. */
  function Size(j: Json): nat {
    |Dumps(j)|
  }

  function FieldSize(field: Field): nat {
    |Quote(Codes(field.key))| + 2 + Size(field.value)
  }

  ghost predicate Ascii(text: string) {
    forall i :: 0 <= i < |text| ==> text[i] as int < 128
  }

  lemma {:induction false} EscapedAscii(text: seq<nat>)
    ensures Ascii(Escaped(text))
  {
    if text != [] {
      EscapeAscii(text[0]);
      EscapedAscii(text[1..]);
    }
  }

  lemma EscapeAscii(c: nat)
    ensures Ascii(Escape(c))
  {
    hide HexDigit, Unit;
    if c >= 127 {
      if c < 0x1_0000 {
        UnitAscii(c);
      } else {
        UnitAscii(0xD800 + (c - 0x1_0000) / 1024);
        UnitAscii(0xDC00 + (c - 0x1_0000) % 1024);
      }
    } else if c < 32 {
      UnitAscii(c);
    }
  }

  lemma UnitAscii(n: nat)
    ensures Ascii(Unit(n))
  {
  }

  lemma {:induction false} DigitsAscii(n: nat)
    ensures Ascii(Digits(n))
  {
    if n >= 10 {
      DigitsAscii(n / 10);
    }
  }

  /** Encoding never leaves ASCII, so the length of the text is the number of bytes sent. */
  lemma {:induction false} DumpsAscii(j: Json)
    ensures Ascii(Dumps(j))
    decreases j
  {
    hide Quote, Digits;
    match j
    case Null =>
    case Bool(_) =>
    case Num(number) => DigitsAscii(if number < 0 then -number else number);
    case Str(text) => QuoteAscii(text);
    case Arr(items) => ItemsAscii(items);
    case Obj(fields) => FieldsAscii(fields);
  }

  lemma QuoteAscii(text: seq<nat>)
    ensures Ascii(Quote(text))
  {
    EscapedAscii(text);
  }

  lemma {:induction false} ItemsAscii(items: seq<Json>)
    ensures Ascii(ItemsText(items))
    decreases items
  {
    hide Dumps;
    if items != [] {
      DumpsAscii(items[0]);
      ItemsAscii(items[1..]);
    }
  }

  lemma {:induction false} FieldsAscii(fields: Fields)
    ensures Ascii(FieldsText(fields))
    decreases fields
  {
    hide Dumps, Quote;
    if fields != [] {
      QuoteAscii(Codes(fields[0].key));
      DumpsAscii(fields[0].value);
      FieldsAscii(fields[1..]);
    }
  }

  lemma {:induction false} ItemsAppend(items: seq<Json>, item: Json)
    ensures |ItemsText(items + [item])| == |ItemsText(items)| + Size(item) + if items == [] then 0 else 2
  {
    hide Dumps;
    if items == [] {
      assert items + [item] == [item];
    } else {
      ItemsAppend(items[1..], item);
      assert (items + [item])[1..] == items[1..] + [item];
    }
  }

  /** What one more item adds to an array. */
  lemma ArrAppend(items: seq<Json>, item: Json)
    ensures Size(Arr(items + [item])) == Size(Arr(items)) + Size(item) + if items == [] then 0 else 2
  {
    hide ItemsText;
    ItemsAppend(items, item);
  }

  /** Replacing the last item changes an array by as much as the item. */
  lemma ArrReplace(items: seq<Json>, item: Json)
    requires items != []
    ensures Size(Arr(items[..|items| - 1] + [item])) == Size(Arr(items)) + Size(item) - Size(items[|items| - 1])
  {
    hide Dumps;
    var before := items[..|items| - 1];
    assert items == before + [items[|items| - 1]];
    ArrAppend(before, item);
    ArrAppend(before, items[|items| - 1]);
  }

  lemma {:induction false} FieldsAppend(fields: Fields, field: Field)
    ensures |FieldsText(fields + [field])| == |FieldsText(fields)| + FieldSize(field) + if fields == [] then 0 else 2
  {
    hide Dumps, Quote;
    if fields == [] {
      assert fields + [field] == [field];
    } else {
      FieldsAppend(fields[1..], field);
      assert (fields + [field])[1..] == fields[1..] + [field];
    }
  }

  /** What one more field adds to an object. */
  lemma ObjAppend(fields: Fields, field: Field)
    ensures Size(Obj(fields + [field])) == Size(Obj(fields)) + FieldSize(field) + if fields == [] then 0 else 2
  {
    hide FieldsText;
    FieldsAppend(fields, field);
  }

  // ---------------------------------------------------------------------------------------
  // Objects as dictionaries
  // ---------------------------------------------------------------------------------------

  ghost predicate DistinctKeys(fields: Fields) {
    forall i, j :: 0 <= i < j < |fields| ==> fields[i].key != fields[j].key
  }

  function Get(fields: Fields, key: string): Option<Json> {
    if fields == [] then None
    else if fields[0].key == key then Some(fields[0].value) else Get(fields[1..], key)
  }

  /** Assign a key: in place if it is there, else behind the others. */
  function Put(fields: Fields, key: string, value: Json): Fields {
    if fields == [] then [Field(key, value)]
    else if fields[0].key == key then [Field(key, value)] + fields[1..]
    else [fields[0]] + Put(fields[1..], key, value)
  }

  /** The fields whose key is not among those left out. */
  function Without(fields: Fields, keys: set<string>): Fields {
    if fields == [] then []
    else if fields[0].key in keys then Without(fields[1..], keys)
    else [fields[0]] + Without(fields[1..], keys)
  }

  lemma {:induction false} GetPut(fields: Fields, key: string, value: Json, other: string)
    ensures Get(Put(fields, key, value), other) == if other == key then Some(value) else Get(fields, other)
  {
    if fields != [] && fields[0].key != key {
      GetPut(fields[1..], key, value, other);
    }
  }

  lemma {:induction false} GetWithout(fields: Fields, keys: set<string>, other: string)
    ensures Get(Without(fields, keys), other) == if other in keys then None else Get(fields, other)
  {
    if fields != [] {
      GetWithout(fields[1..], keys, other);
    }
  }

  lemma {:induction false} PutNew(fields: Fields, key: string, value: Json)
    requires Get(fields, key) == None
    ensures Put(fields, key, value) == fields + [Field(key, value)]
  {
    if fields != [] {
      PutNew(fields[1..], key, value);
    }
  }

  lemma {:induction false} GetAppend(fields: Fields, field: Field, other: string)
    ensures Get(fields + [field], other) ==
            match Get(fields, other)
            case Some(value) => Some(value)
            case None => if field.key == other then Some(field.value) else None
  {
    if fields == [] {
      assert fields + [field] == [field];
    } else {
      GetAppend(fields[1..], field, other);
      assert (fields + [field])[1..] == fields[1..] + [field];
    }
  }

  /** Equality of dictionaries does not look at the order of keys. */
  ghost predicate SameFields(a: Fields, b: Fields) {
    forall key :: Get(a, key) == Get(b, key)
  }

  /** Assign every field in turn. */
  function PutAll(fields: Fields, more: Fields): Fields
    decreases |more|
  {
    if more == [] then fields else PutAll(Put(fields, more[0].key, more[0].value), more[1..])
  }

  lemma {:induction false} GetPutAll(fields: Fields, more: Fields, other: string)
    requires DistinctKeys(more)
    ensures Get(PutAll(fields, more), other) ==
            match Get(more, other)
            case Some(value) => Some(value)
            case None => Get(fields, other)
    decreases |more|
  {
    if more != [] {
      GetPut(fields, more[0].key, more[0].value, other);
      GetPutAll(Put(fields, more[0].key, more[0].value), more[1..], other);
      if more[0].key == other {
        GetNone(more[1..], other);
      }
    }
  }

  lemma {:induction false} GetNone(fields: Fields, key: string)
    requires forall i :: 0 <= i < |fields| ==> fields[i].key != key
    ensures Get(fields, key) == None
  {
    if fields != [] {
      GetNone(fields[1..], key);
    }
  }

  lemma {:induction false} WithoutKeys(fields: Fields, keys: set<string>)
    requires DistinctKeys(fields)
    ensures DistinctKeys(Without(fields, keys))
    ensures forall i :: 0 <= i < |Without(fields, keys)| ==>
              exists j :: 0 <= j < |fields| && fields[j] == Without(fields, keys)[i]
  {
    if fields != [] {
      WithoutKeys(fields[1..], keys);
      var rest := Without(fields[1..], keys);
      forall i | 0 <= i < |rest|
        ensures rest[i].key != fields[0].key && exists j :: 0 <= j < |fields| && fields[j] == rest[i]
      {
        var j :| 0 <= j < |fields[1..]| && fields[1..][j] == rest[i];
        assert fields[j + 1] == rest[i];
      }
    }
  }

  lemma {:induction false} PutKeys(fields: Fields, key: string, value: Json)
    requires DistinctKeys(fields)
    ensures DistinctKeys(Put(fields, key, value))
    ensures forall i :: 0 <= i < |Put(fields, key, value)| ==>
              Put(fields, key, value)[i].key == key || exists j :: 0 <= j < |fields| && fields[j] == Put(fields, key, value)[i]
  {
    if fields != [] && fields[0].key != key {
      PutKeys(fields[1..], key, value);
      var rest := Put(fields[1..], key, value);
      forall i | 0 <= i < |rest|
        ensures rest[i].key != fields[0].key
        ensures rest[i].key == key || exists j :: 0 <= j < |fields| && fields[j] == rest[i]
      {
        if rest[i].key != key {
          var j :| 0 <= j < |fields[1..]| && fields[1..][j] == rest[i];
          assert fields[j + 1] == rest[i];
        }
      }
    }
  }

  lemma {:induction false} FieldsReplace(fields: Fields, i: nat, value: Json)
    requires i < |fields|
    ensures |FieldsText(fields[i := Field(fields[i].key, value)])| ==
            |FieldsText(fields)| + Size(value) - Size(fields[i].value)
  {
    hide Dumps, Quote;
    var after := fields[i := Field(fields[i].key, value)];
    if i > 0 {
      FieldsReplace(fields[1..], i - 1, value);
      assert after[1..] == fields[1..][i - 1 := Field(fields[i].key, value)];
    } else {
      assert after[1..] == fields[1..];
    }
  }

  /** Replacing a value changes an object by as much as the value. */
  lemma ObjReplace(fields: Fields, i: nat, value: Json)
    requires i < |fields|
    ensures Size(Obj(fields[i := Field(fields[i].key, value)])) == Size(Obj(fields)) + Size(value) - Size(fields[i].value)
  {
    hide FieldsText;
    FieldsReplace(fields, i, value);
  }

  /** What assigning a key changes in the length of an object. */
  lemma {:induction false} PutSize(fields: Fields, key: string, value: Json)
    ensures Size(Obj(Put(fields, key, value))) == Size(Obj(fields)) +
            match Get(fields, key)
            case Some(before) => Size(value) - Size(before)
            case None => FieldSize(Field(key, value)) + if fields == [] then 0 else 2
  {
    hide FieldsText, Size, FieldSize;
    var i := KeyIndex(fields, key);
    PutIndex(fields, key, value);
    if i < |fields| {
      ObjReplace(fields, i, value);
    } else {
      ObjAppend(fields, Field(key, value));
    }
  }

  function KeyIndex(fields: Fields, key: string): (r: nat)
    ensures r <= |fields|
  {
    if fields == [] || fields[0].key == key then 0 else 1 + KeyIndex(fields[1..], key)
  }

  lemma {:induction false} PutIndex(fields: Fields, key: string, value: Json)
    ensures var i := KeyIndex(fields, key);
            if i < |fields|
            then && fields[i].key == key && Get(fields, key) == Some(fields[i].value)
                 && Put(fields, key, value) == fields[i := Field(fields[i].key, value)]
            else Get(fields, key) == None && Put(fields, key, value) == fields + [Field(key, value)]
  {
    if fields != [] && fields[0].key != key {
      PutIndex(fields[1..], key, value);
    }
  }

  lemma {:induction false} DigitsMonotone(a: nat, b: nat)
    requires a <= b
    ensures |Digits(a)| <= |Digits(b)|
    decreases b
  {
    if a >= 10 {
      DigitsMonotone(a / 10, b / 10);
    }
  }
}
