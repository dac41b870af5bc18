/** Class names as byte keys that sort like their UTF-16 form (CESU-8, Unicode Technical Report 26),
    and the directory of owners kept under them. */
module ClassDirectories {
  import opened Bytes
  import opened JsonText
  import opened Mutf8
  import opened Sorting

  /** Code points, lone surrogates included. */
  predicate Points(name: Text) {
    forall i :: 0 <= i < |name| ==> name[i] < 0x11_0000
  }

  // ---------------------------------------------------------------------------------------
  // Keys
  // ---------------------------------------------------------------------------------------

  /** A code unit in UTF-8, as if it were a code point. */
  function UnitKey(u: nat): (r: seq<byte>)
    requires u < 0x1_0000
    ensures 1 <= |r| <= 3
  {
    if u < 0x80 then [u]
    else if u < 0x800 then [0xC0 + u / 64, 0x80 + u % 64]
    else [0xE0 + u / 4096, 0x80 + u / 64 % 64, 0x80 + u % 64]
  }

  function UnitKeys(units: seq<nat>): seq<byte>
    requires Units(units)
  {
    if units == [] then [] else UnitKey(units[0]) + UnitKeys(units[1..])
  }

  lemma {:induction false} Utf16Units(name: Text)
    requires Points(name)
    ensures Units(Utf16(name))
  {
    if name != [] {
      Utf16Units(name[1..]);
    }
  }

  /** Supplementary characters as surrogate pairs, and every unit in UTF-8. */
  function KeyOf(name: Text): seq<byte>
    requires Points(name)
  {
    Utf16Units(name);
    UnitKeys(Utf16(name))
  }

  function DecodeKey(value: seq<byte>): Option<Text> {
    match DecodeUtf8(value)
    case None => None
    case Some(text) => Some(Combine(Utf16(text)))
  }

  // ---------------------------------------------------------------------------------------
  // Order
  // ---------------------------------------------------------------------------------------

  lemma {:induction false} LessAfter(p: seq<nat>, a: seq<nat>, b: seq<nat>)
    ensures Less(p + a, p + b) <==> Less(a, b)
  {
    if p == [] {
      assert p + a == a && p + b == b;
    } else {
      LessAfter(p[1..], a, b);
      assert (p + a)[1..] == p[1..] + a && (p + b)[1..] == p[1..] + b;
    }
  }

  lemma {:induction false} LessAt(a: seq<nat>, b: seq<nat>, i: nat)
    requires i < |a| && i < |b| && a[..i] == b[..i] && a[i] < b[i]
    ensures Less(a, b)
  {
    if i > 0 {
      assert a[..i][0] == b[..i][0];
      assert a[1..][..i - 1] == a[..i][1..] && b[1..][..i - 1] == b[..i][1..];
      LessAt(a[1..], b[1..], i - 1);
    }
  }

  lemma SixBits(u: nat, v: nat)
    requires u < v
    ensures u / 64 < v / 64 || (u / 64 == v / 64 && u % 64 < v % 64)
  {
  }

  lemma TwelveBits(u: nat)
    ensures u / 4096 == u / 64 / 64
  {
  }

  lemma LongKeysDiffer(u: nat, v: nat) returns (i: nat)
    requires 0x800 <= u < v < 0x1_0000
    ensures i < 3 && UnitKey(u)[..i] == UnitKey(v)[..i] && UnitKey(u)[i] < UnitKey(v)[i]
  {
    SixBits(u, v);
    TwelveBits(u);
    TwelveBits(v);
    var a, b := UnitKey(u), UnitKey(v);
    if u / 64 == v / 64 {
      i := 2;
    } else {
      SixBits(u / 64, v / 64);
      i := if u / 64 / 64 < v / 64 / 64 then 0 else 1;
    }
    assert forall k :: 0 <= k < i ==> a[k] == b[k];
  }

  /** Where two unit keys first differ, the smaller unit has the smaller byte. */
  lemma UnitKeysDiffer(u: nat, v: nat) returns (i: nat)
    requires u < v < 0x1_0000
    ensures i < |UnitKey(u)| && i < |UnitKey(v)| && UnitKey(u)[..i] == UnitKey(v)[..i] && UnitKey(u)[i] < UnitKey(v)[i]
  {
    if u >= 0x800 {
      i := LongKeysDiffer(u, v);
    } else if u >= 0x80 && v < 0x800 {
      SixBits(u, v);
      i := if u / 64 < v / 64 then 0 else 1;
      assert UnitKey(u)[..i] == UnitKey(v)[..i];
    } else {
      i := 0;
    }
  }

  lemma UnitKeyLess(u: nat, v: nat, x: seq<byte>, y: seq<byte>)
    requires u < v < 0x1_0000
    ensures Less(UnitKey(u) + x, UnitKey(v) + y)
  {
    var i := UnitKeysDiffer(u, v);
    hide UnitKey;
    var a, b := UnitKey(u) + x, UnitKey(v) + y;
    assert a[..i] == UnitKey(u)[..i] && b[..i] == UnitKey(v)[..i];
    LessAt(a, b, i);
  }

  lemma {:induction false} UnitKeysOrder(a: seq<nat>, b: seq<nat>)
    requires Units(a) && Units(b)
    ensures Less(UnitKeys(a), UnitKeys(b)) <==> Less(a, b)
  {
    hide UnitKey;
    if a != [] && b != [] {
      if a[0] == b[0] {
        LessAfter(UnitKey(a[0]), UnitKeys(a[1..]), UnitKeys(b[1..]));
        UnitKeysOrder(a[1..], b[1..]);
      } else if a[0] < b[0] {
        UnitKeyLess(a[0], b[0], UnitKeys(a[1..]), UnitKeys(b[1..]));
      } else {
        UnitKeyLess(b[0], a[0], UnitKeys(b[1..]), UnitKeys(a[1..]));
        LessTotal(UnitKeys(a), UnitKeys(b));
      }
    }
  }

  /** Byte order of keys is UTF-16 order of names, lone surrogates included. */
  lemma KeysSortAsUtf16(a: Text, b: Text)
    requires Points(a) && Points(b)
    ensures Less(KeyOf(a), KeyOf(b)) <==> Less(Utf16(a), Utf16(b))
  {
    Utf16Units(a);
    Utf16Units(b);
    UnitKeysOrder(Utf16(a), Utf16(b));
  }

  // ---------------------------------------------------------------------------------------
  // Back to names
  // ---------------------------------------------------------------------------------------

  lemma DecodeUnitKey(u: nat, rest: seq<byte>)
    requires u < 0x1_0000
    ensures DecodePoint(UnitKey(u) + rest) == Some((u, |UnitKey(u)|))
  {
    var data := UnitKey(u) + rest;
    if 0x80 <= u < 0x800 {
      assert data[0] == 0xC0 + u / 64 && data[1] == 0x80 + u % 64;
    } else if 0x800 <= u {
      SixBitsBack(u);
      assert data[0] == 0xE0 + u / 4096 && data[1] == 0x80 + u / 64 % 64 && data[2] == 0x80 + u % 64;
    }
  }

  lemma SixBitsBack(u: nat)
    ensures u == 4096 * (u / 4096) + 64 * (u / 64 % 64) + u % 64
    ensures u >= 0x800 && u / 4096 == 0 ==> u / 64 % 64 >= 32
  {
    TwelveBits(u);
  }

  lemma {:induction false} DecodeUnitKeys(units: seq<nat>)
    requires Units(units)
    ensures DecodeUtf8(UnitKeys(units)) == Some(units)
  {
    hide UnitKey, DecodePoint;
    if units != [] {
      DecodeUnitKey(units[0], UnitKeys(units[1..]));
      DecodeUnitKeys(units[1..]);
      assert UnitKeys(units)[|UnitKey(units[0])|..] == UnitKeys(units[1..]);
      assert UnitKeys(units) != [] && units == [units[0]] + units[1..];
    }
  }

  /** A high surrogate directly followed by a low one, as two code points of their own. */
  predicate SplitPair(name: Text) {
    |name| >= 2 && ((High(name[0]) && Low(name[1])) || SplitPair(name[1..]))
  }

  lemma {:induction false} CombineIsName(name: Text)
    requires Points(name)
    ensures Combine(Utf16(name)) == name <==> !SplitPair(name)
  {
    if name != [] {
      var rest := name[1..];
      CombineIsName(rest);
      Utf16Head(rest);
      CombineHead(name);
      assert name == [name[0]] + rest;
    }
  }

  lemma Utf16Head(rest: Text)
    requires Points(rest)
    ensures rest == [] ==> Utf16(rest) == []
    ensures rest != [] ==> Utf16(rest) != [] && (Low(Utf16(rest)[0]) <==> Low(rest[0]))
  {
  }

  lemma CombineHead(name: Text)
    requires Points(name) && name != []
    ensures var units := Utf16(name[1..]);
            if High(name[0]) && units != [] && Low(units[0])
            then Combine(Utf16(name)) != [] && Combine(Utf16(name))[0] >= 0x1_0000
            else Combine(Utf16(name)) == [name[0]] + Combine(units)
  {
    hide *;
    var units, c := Utf16(name[1..]), name[0];
    Utf16Front(name);
    if c < 0x1_0000 {
      CombineSingle(c, units);
    } else {
      PointBound(name);
      PairBack(c);
      CombinePair(0xD800 + (c - 0x1_0000) / 1024, 0xDC00 + (c - 0x1_0000) % 1024, units);
    }
  }

  lemma Utf16Front(name: Text)
    requires name != []
    ensures var c := name[0];
            Utf16(name) == (if c < 0x1_0000 then [c]
                            else [0xD800 + (c - 0x1_0000) / 1024, 0xDC00 + (c - 0x1_0000) % 1024]) + Utf16(name[1..])
  {
  }

  lemma PointBound(name: Text)
    requires Points(name) && name != []
    ensures name[0] < 0x11_0000
  {
  }

  lemma PairBack(c: nat)
    requires 0x1_0000 <= c < 0x11_0000
    ensures var high, low := 0xD800 + (c - 0x1_0000) / 1024, 0xDC00 + (c - 0x1_0000) % 1024;
            High(high) && Low(low) && 0x1_0000 + 1024 * (high - 0xD800) + (low - 0xDC00) == c && !High(c)
  {
  }

  lemma CombineSingle(u: nat, units: seq<nat>)
    ensures if High(u) && units != [] && Low(units[0])
            then Combine([u] + units) != [] && Combine([u] + units)[0] >= 0x1_0000
            else Combine([u] + units) == [u] + Combine(units)
  {
    assert ([u] + units)[1..] == units;
  }

  lemma CombinePair(high: nat, low: nat, units: seq<nat>)
    requires High(high) && Low(low)
    ensures Combine([high, low] + units) == [0x1_0000 + 1024 * (high - 0xD800) + (low - 0xDC00)] + Combine(units)
  {
    assert ([high, low] + units)[2..] == units;
  }

  /** A key gives back its name exactly when the name has no split pair. */
  lemma DecodeKeyExactly(name: Text)
    requires Points(name)
    ensures DecodeKey(KeyOf(name)) == Some(Combine(Utf16(name)))
    ensures DecodeKey(KeyOf(name)) == Some(name) <==> !SplitPair(name)
  {
    Utf16Units(name);
    DecodeUnitKeys(Utf16(name));
    PlainUnits(Utf16(name));
    CombineIsName(name);
    hide DecodeUtf8, Combine, SplitPair;
  }

  // ---------------------------------------------------------------------------------------
  // Prefixes
  // ---------------------------------------------------------------------------------------

  lemma {:induction false} UnitKeysPrefix(a: seq<nat>, b: seq<nat>)
    requires Units(a) && Units(b)
    ensures UnitKeys(a) <= UnitKeys(b) <==> a <= b
  {
    hide UnitKey;
    if a != [] && b != [] {
      if a[0] == b[0] {
        UnitKeysPrefix(a[1..], b[1..]);
        PrefixAfter(UnitKey(a[0]), UnitKeys(a[1..]), UnitKeys(b[1..]));
        PrefixAfter([a[0]], a[1..], b[1..]);
        assert a == [a[0]] + a[1..] && b == [b[0]] + b[1..];
      } else if UnitKeys(a) <= UnitKeys(b) {
        SamePoint(a[0], UnitKeys(a[1..]), b[0], UnitKeys(b[1..]));
      }
    }
  }

  lemma PrefixAfter<T>(p: seq<T>, a: seq<T>, b: seq<T>)
    ensures p + a <= p + b <==> a <= b
  {
    if a <= b {
      assert p + b == (p + a) + b[|a|..];
    }
    if p + a <= p + b {
      assert b == (p + b)[|p|..] && a == (p + a)[|p|..];
      assert b[..|a|] == (p + b)[|p|..|p| + |a|] == (p + a)[|p|..];
    }
  }

  /** No unit key is the beginning of another. */
  lemma SamePoint(u: nat, x: seq<byte>, v: nat, y: seq<byte>)
    requires u < 0x1_0000 && v < 0x1_0000 && UnitKey(u) + x <= UnitKey(v) + y
    ensures u == v
  {
    hide UnitKey, DecodePoint;
    var z := (UnitKey(v) + y)[|UnitKey(u) + x|..];
    assert UnitKey(v) + y == UnitKey(u) + (x + z);
    DecodeUnitKey(u, x + z);
    DecodeUnitKey(v, y);
  }

  /** The least key above all that begin with `lower`, if there is one. */
  function Upper(lower: seq<byte>): Option<seq<byte>> {
    if lower == [] then None
    else
      match Upper(lower[1..])
      case Some(rest) => Some([lower[0]] + rest)
      case None => if lower[0] == 255 then None else Some([lower[0] + 1])
  }

  predicate InRange(lower: seq<byte>, upper: Option<seq<byte>>, key: seq<byte>) {
    !Less(key, lower) && (upper.Some? ==> Less(key, upper.value))
  }

  /** The half-open range is exactly the keys with the prefix. */
  lemma {:induction false} RangeIsPrefix(lower: seq<byte>, key: seq<byte>)
    ensures InRange(lower, Upper(lower), key) <==> lower <= key
  {
    if lower != [] && key != [] {
      RangeIsPrefix(lower[1..], key[1..]);
      PrefixAfter([lower[0]], lower[1..], key[1..]);
      assert lower == [lower[0]] + lower[1..] && key == [key[0]] + key[1..];
      match Upper(lower[1..])
      case Some(rest) => assert ([lower[0]] + rest)[1..] == rest;
      case None =>
        if lower[0] < 255 {
          assert Less(key, [lower[0] + 1]) <==> key[0] <= lower[0];
        }
    }
  }

  lemma {:induction false} UpperStrips(lower: seq<byte>)
    ensures Upper(lower + [255]) == Upper(lower)
  {
    if lower == [] {
      assert lower + [255] == [255] && [255][1..] == [];
    } else {
      UpperStrips(lower[1..]);
      assert (lower + [255])[1..] == lower[1..] + [255];
    }
  }

  lemma {:induction false} UpperBumps(lower: seq<byte>, last: byte)
    requires last < 255
    ensures Upper(lower + [last]) == Some(lower + [last + 1])
  {
    if lower == [] {
      assert lower + [last] == [last] && [last][1..] == [] && lower + [last + 1] == [last + 1];
    } else {
      UpperBumps(lower[1..], last);
      assert (lower + [last])[1..] == lower[1..] + [last];
      assert [lower[0]] + (lower[1..] + [last + 1]) == lower + [last + 1];
    }
  }

  /** Bytes of 255 are dropped from the end, and the last one left is raised. */
  method UpperBound(lower: seq<byte>) returns (upper: Option<seq<byte>>)
    ensures upper == Upper(lower)
  {
    hide Upper;
    var bound := lower;
    while bound != [] && bound[|bound| - 1] == 255
      invariant Upper(bound) == Upper(lower)
      decreases |bound|
    {
      UpperStrips(bound[..|bound| - 1]);
      assert bound == bound[..|bound| - 1] + [255];
      bound := bound[..|bound| - 1];
    }
    if bound == [] {
      UpperOfNothing();
      upper := None;
    } else {
      var last := |bound| - 1;
      UpperBumps(bound[..last], bound[last]);
      assert bound == bound[..last] + [bound[last]];
      upper := Some(bound[..last] + [bound[last] + 1]);
    }
  }

  lemma UpperOfNothing()
    ensures Upper([]) == None
  {
  }

  /** The range of a prefix selects exactly the names whose UTF-16 form begins with it. */
  lemma RangeSelectsPrefix(prefix: Text, name: Text)
    requires Points(prefix) && Points(name)
    ensures InRange(KeyOf(prefix), Upper(KeyOf(prefix)), KeyOf(name)) <==> Utf16(prefix) <= Utf16(name)
  {
    Utf16Units(prefix);
    Utf16Units(name);
    RangeIsPrefix(KeyOf(prefix), KeyOf(name));
    UnitKeysPrefix(Utf16(prefix), Utf16(name));
  }

  // ---------------------------------------------------------------------------------------
  // The table
  // ---------------------------------------------------------------------------------------

  const MAX_ENTRIES := 64

  const MAX_DUPLICATES := 20

  /** A row of the table: the key of a class name and the DEX entry that defines it. */
  datatype Row = Row(key: seq<byte>, entry: Text)

  datatype Duplicate = Duplicate(name: Text, previous: Text, entry: Text)

  datatype Added = InvalidEntry | TooManyEntries | MetadataLimit | Duplicates(duplicates: seq<Duplicate>)

  ghost predicate Ascending(rows: seq<Row>) {
    forall i, j :: 0 <= i < j < |rows| ==> Less(rows[i].key, rows[j].key)
  }

  function Owner(rows: seq<Row>, key: seq<byte>): Option<Text> {
    if rows == [] then None else if rows[0].key == key then Some(rows[0].entry) else Owner(rows[1..], key)
  }

  /** Insert a row in key order, unless its key is there. */
  function Stored(rows: seq<Row>, row: Row): seq<Row> {
    if rows == [] || Less(row.key, rows[0].key) then [row] + rows
    else if rows[0].key == row.key then rows
    else [rows[0]] + Stored(rows[1..], row)
  }

  lemma {:induction false} StoredMember(rows: seq<Row>, row: Row, k: nat)
    requires k < |Stored(rows, row)|
    ensures Stored(rows, row)[k] == row || Stored(rows, row)[k] in rows
  {
    hide Less;
    if rows != [] && !Less(row.key, rows[0].key) && rows[0].key != row.key && k > 0 {
      StoredMember(rows[1..], row, k - 1);
    }
  }

  lemma {:induction false} StoredAscending(rows: seq<Row>, row: Row)
    requires Ascending(rows)
    ensures Ascending(Stored(rows, row))
  {
    hide Less;
    if rows == [] {
    } else if Less(row.key, rows[0].key) {
      var after := [row] + rows;
      forall j | 1 <= j < |after| ensures Less(row.key, after[j].key) {
        if j > 1 {
          LessTransitive(row.key, rows[0].key, rows[j - 1].key);
        }
      }
      assert forall i, j :: 0 < i < j < |after| ==> after[i] == rows[i - 1] && after[j] == rows[j - 1];
    } else if rows[0].key != row.key {
      LessTotal(row.key, rows[0].key);
      StoredAscending(rows[1..], row);
      var rest := Stored(rows[1..], row);
      forall j | 0 <= j < |rest| ensures Less(rows[0].key, rest[j].key) {
        StoredMember(rows[1..], row, j);
      }
    }
  }

  lemma {:induction false} NoOwnerBelow(rows: seq<Row>, key: seq<byte>)
    requires Ascending(rows) && (rows != [] ==> Less(key, rows[0].key))
    ensures Owner(rows, key) == None
  {
    hide Less;
    if rows != [] {
      LessTotal(key, rows[0].key);
      LessTotal(key, key);
      if |rows| > 1 {
        LessTransitive(key, rows[0].key, rows[1].key);
      }
      NoOwnerBelow(rows[1..], key);
    }
  }

  lemma {:induction false} OwnerStored(rows: seq<Row>, row: Row, key: seq<byte>)
    requires Ascending(rows)
    ensures Owner(Stored(rows, row), key) ==
            if key == row.key && Owner(rows, key) == None then Some(row.entry) else Owner(rows, key)
  {
    hide Less;
    if rows != [] && Less(row.key, rows[0].key) {
      NoOwnerBelow(rows, row.key);
      assert ([row] + rows)[1..] == rows;
    } else if rows != [] && rows[0].key != row.key {
      OwnerStored(rows[1..], row, key);
      assert ([rows[0]] + Stored(rows[1..], row))[1..] == Stored(rows[1..], row);
    }
  }

  /** The name a key stands for. */
  function NameOf(key: seq<byte>): Text {
    match DecodeKey(key)
    case Some(name) => name
    case None => []
  }

  /** What one owner takes in the encoded directory, with its separator. */
  function RowSize(row: Row): nat {
    |Quote(NameOf(row.key))| + |Quote(row.entry)| + 4
  }

  function RowsSize(rows: seq<Row>): nat {
    if rows == [] then 0 else RowSize(rows[0]) + RowsSize(rows[1..])
  }

  function PairsText(rows: seq<Row>): string {
    if rows == [] then ""
    else Quote(NameOf(rows[0].key)) + ": " + Quote(rows[0].entry) + if |rows| == 1 then "" else ", " + PairsText(rows[1..])
  }

  /** The directory as one encoded object. */
  function DirectoryText(rows: seq<Row>): string {
    "{" + PairsText(rows) + "}"
  }

  lemma {:induction false} PairsSize(rows: seq<Row>)
    ensures |PairsText(rows)| + (if rows == [] then 0 else 2) == RowsSize(rows)
  {
    hide Quote, NameOf;
    if rows != [] {
      PairsSize(rows[1..]);
    }
  }

  lemma {:induction false} StoredSize(rows: seq<Row>, row: Row)
    requires Ascending(rows)
    ensures Owner(rows, row.key) == None ==>
              RowsSize(Stored(rows, row)) == RowsSize(rows) + RowSize(row) && |Stored(rows, row)| == |rows| + 1
    ensures Owner(rows, row.key).Some? ==> Stored(rows, row) == rows
  {
    hide Less, RowSize;
    if rows == [] {
      assert [row][1..] == [];
    } else if Less(row.key, rows[0].key) {
      NoOwnerBelow(rows, row.key);
      assert ([row] + rows)[1..] == rows;
    } else if rows[0].key != row.key {
      StoredSize(rows[1..], row);
      assert ([rows[0]] + Stored(rows[1..], row))[1..] == Stored(rows[1..], row);
      assert rows == [rows[0]] + rows[1..];
    }
  }

  /** Escaping does not see how pairs are spelled. */
  lemma {:induction false} EscapedUnits(text: Text)
    requires Points(text)
    ensures Escaped(Utf16(text)) == Escaped(text)
  {
    hide Escape;
    if text != [] {
      EscapedUnits(text[1..]);
      EscapedFront(text[0], Utf16(text[1..]));
    }
  }

  lemma EscapedFront(c: nat, rest: seq<nat>)
    ensures if c < 0x1_0000 then Escaped([c] + rest) == Escape(c) + Escaped(rest)
            else Escaped([0xD800 + (c - 0x1_0000) / 1024, 0xDC00 + (c - 0x1_0000) % 1024] + rest) == Escape(c) + Escaped(rest)
                 || c >= 0x11_0000
  {
    hide *;
    if c < 0x1_0000 {
      EscapedOne(c, rest);
    } else if c < 0x11_0000 {
      EscapedPairFront(c, 0xD800 + (c - 0x1_0000) / 1024, 0xDC00 + (c - 0x1_0000) % 1024, rest);
    }
  }

  lemma EscapedOne(c: nat, rest: seq<nat>)
    ensures Escaped([c] + rest) == Escape(c) + Escaped(rest)
  {
    hide Escape;
    assert ([c] + rest)[1..] == rest;
  }

  lemma EscapedPairFront(c: nat, high: nat, low: nat, rest: seq<nat>)
    requires 0x1_0000 <= c < 0x11_0000 && high == 0xD800 + (c - 0x1_0000) / 1024 && low == 0xDC00 + (c - 0x1_0000) % 1024
    ensures Escaped([high, low] + rest) == Escape(c) + Escaped(rest)
  {
    hide *;
    EscapedTwo(high, low, rest);
    EscapeSurrogate(high);
    EscapeSurrogate(low);
    EscapePair(c);
    assert Unit(high) + (Unit(low) + Escaped(rest)) == (Unit(high) + Unit(low)) + Escaped(rest);
  }

  lemma EscapedTwo(a: nat, b: nat, rest: seq<nat>)
    ensures Escaped([a, b] + rest) == Escape(a) + (Escape(b) + Escaped(rest))
  {
    hide Escape;
    assert ([a, b] + rest)[1..] == [b] + rest && ([b] + rest)[1..] == rest;
  }

  lemma EscapeSurrogate(u: nat)
    requires 0xD800 <= u < 0xE000
    ensures Escape(u) == Unit(u)
  {
    hide Unit;
  }

  lemma EscapePair(c: nat)
    requires 0x1_0000 <= c
    ensures Escape(c) == Unit(0xD800 + (c - 0x1_0000) / 1024) + Unit(0xDC00 + (c - 0x1_0000) % 1024)
  {
    hide Unit;
  }

  lemma {:induction false} CombinePoints(units: seq<nat>)
    requires Units(units)
    ensures Points(Combine(units))
  {
    if units != [] {
      CombinePoints(units[1..]);
      if |units| >= 2 {
        CombinePoints(units[2..]);
      }
    }
  }

  /** A name and the name its key stands for are written alike. */
  lemma NameSize(name: Text)
    requires Points(name)
    ensures Quote(NameOf(KeyOf(name))) == Quote(name)
  {
    Utf16Units(name);
    DecodeKeyExactly(name);
    CombineKeepsUnits(Utf16(name));
    CombinePoints(Utf16(name));
    EscapedUnits(name);
    EscapedUnits(Combine(Utf16(name)));
    hide Escaped, Combine, DecodeKey;
  }

  // ---------------------------------------------------------------------------------------
  // The directory
  // ---------------------------------------------------------------------------------------

  ghost predicate AllPoints(names: seq<Text>) {
    forall i :: 0 <= i < |names| ==> Points(names[i])
  }

  function NameAt(names: seq<Text>, i: nat): (r: Text)
    requires AllPoints(names) && i < |names|
    ensures Points(r)
  {
    names[i]
  }

  /** The table with every name of an entry inserted. */
  function AllStored(rows: seq<Row>, names: seq<Text>, entry: Text): seq<Row>
    requires AllPoints(names)
  {
    if names == [] then rows
    else
      var last := |names| - 1;
      Stored(AllStored(rows, names[..last], entry), Row(KeyOf(NameAt(names, last)), entry))
  }

  /** The names the table does not have yet. */
  function NewNames(rows: seq<Row>, names: seq<Text>): (r: seq<Text>)
    requires AllPoints(names)
    ensures AllPoints(r) && |r| <= |names|
  {
    if names == [] then []
    else
      var last := |names| - 1;
      NewNames(rows, names[..last])
      + if Owner(rows, KeyOf(NameAt(names, last))) == None then [names[last]] else []
  }

  ghost predicate HasKey(names: seq<Text>, key: seq<byte>)
    requires AllPoints(names)
  {
    exists i :: 0 <= i < |names| && KeyOf(names[i]) == key
  }

  /** The same, each at its first place only: those that are inserted. */
  ghost function FirstNames(rows: seq<Row>, names: seq<Text>): (r: seq<Text>)
    requires AllPoints(names)
    ensures AllPoints(r) && |r| <= |NewNames(rows, names)|
  {
    if names == [] then []
    else
      var last := |names| - 1; var key := KeyOf(NameAt(names, last));
      FirstNames(rows, names[..last]) + if Owner(rows, key) == None && !HasKey(names[..last], key) then [names[last]] else []
  }

  function NamesSize(names: seq<Text>): nat {
    if names == [] then 0 else NamesSize(names[..|names| - 1]) + |Quote(names[|names| - 1])|
  }

  lemma NamesSizeAppend(names: seq<Text>, name: Text)
    ensures NamesSize(names + [name]) == NamesSize(names) + |Quote(name)|
  {
    assert (names + [name])[..|names|] == names;
  }

  lemma {:induction false} AllStoredOwner(rows: seq<Row>, names: seq<Text>, entry: Text, key: seq<byte>)
    requires Ascending(rows) && AllPoints(names)
    ensures Ascending(AllStored(rows, names, entry))
    ensures Owner(AllStored(rows, names, entry), key) ==
            if Owner(rows, key) == None && HasKey(names, key) then Some(entry) else Owner(rows, key)
  {
    hide KeyOf, Points, Stored, Ascending;
    if names != [] {
      var last := |names| - 1;
      AllStoredOwner(rows, names[..last], entry, key);
      var before, row := AllStored(rows, names[..last], entry), Row(KeyOf(NameAt(names, last)), entry);
      StoredAscending(before, row);
      OwnerStored(before, row, key);
      assert HasKey(names, key) <==> HasKey(names[..last], key) || row.key == key by {
        HasKeyAppend(names, key);
      }
    }
  }

  lemma HasKeyAppend(names: seq<Text>, key: seq<byte>)
    requires AllPoints(names) && names != []
    ensures HasKey(names, key) <==> HasKey(names[..|names| - 1], key) || KeyOf(names[|names| - 1]) == key
  {
    hide KeyOf, Points;
    var last := |names| - 1;
    if HasKey(names[..last], key) {
      var i :| 0 <= i < last && KeyOf(names[..last][i]) == key;
      assert names[i] == names[..last][i];
    }
    if HasKey(names, key) {
      var i :| 0 <= i < |names| && KeyOf(names[i]) == key;
      assert i < last ==> names[..last][i] == names[i];
    }
  }

  /** Inserting an entry's names adds, to the length of the directory, exactly what is counted for
      the first of each of the names that are new. */
  lemma {:induction false} AllStoredSize(rows: seq<Row>, names: seq<Text>, entry: Text)
    requires Ascending(rows) && AllPoints(names)
    ensures var after, news := AllStored(rows, names, entry), FirstNames(rows, names);
            && |after| == |rows| + |news|
            && RowsSize(after) == RowsSize(rows) + NamesSize(news) + Times(|news|, |Quote(entry)| + 4)
  {
    hide KeyOf, Points, Stored, Ascending, Quote, Times, RowsSize, NamesSize, Owner, HasKey;
    TimesZero(|Quote(entry)| + 4);
    NamesSizeZero();
    if names != [] {
      var last := |names| - 1;
      var init, name := names[..last], names[last];
      AllStoredSize(rows, init, entry);
      var before, row := AllStored(rows, init, entry), Row(KeyOf(NameAt(names, last)), entry);
      AllStoredOwner(rows, init, entry, row.key);
      StoredSize(before, row);
      RowIsSized(name, entry);
      NamesSizeAppend(FirstNames(rows, init), name);
      TimesStep(|FirstNames(rows, init)|, |Quote(entry)| + 4);
      assert FirstNames(rows, init) + [] == FirstNames(rows, init);
    }
  }

  /** What the new names that are given more than once are counted beyond their first place. */
  ghost function Repeats(rows: seq<Row>, names: seq<Text>): nat
    requires AllPoints(names)
  {
    FirstIsLess(rows, names);
    NamesSize(NewNames(rows, names)) - NamesSize(FirstNames(rows, names))
  }

  lemma {:induction false} FirstIsLess(rows: seq<Row>, names: seq<Text>)
    requires AllPoints(names)
    ensures NamesSize(FirstNames(rows, names)) <= NamesSize(NewNames(rows, names))
  {
    if names != [] {
      FirstStep(rows, names);
      FirstIsLess(rows, names[..|names| - 1]);
    }
  }

  lemma FirstStep(rows: seq<Row>, names: seq<Text>)
    requires AllPoints(names) && names != []
    ensures var init, name := names[..|names| - 1], names[|names| - 1];
            var isNew := Owner(rows, KeyOf(name)) == None;
            && NamesSize(NewNames(rows, names)) == NamesSize(NewNames(rows, init)) + (if isNew then |Quote(name)| else 0)
            && NamesSize(FirstNames(rows, names)) == NamesSize(FirstNames(rows, init))
                                                     + if isNew && !HasKey(init, KeyOf(name)) then |Quote(name)| else 0
  {
    hide KeyOf, Points, Quote, NamesSize, Owner, HasKey;
    var init, name := names[..|names| - 1], names[|names| - 1];
    NamesSizeAppend(NewNames(rows, init), name);
    NamesSizeAppend(FirstNames(rows, init), name);
    assert NewNames(rows, init) + [] == NewNames(rows, init) && FirstNames(rows, init) + [] == FirstNames(rows, init);
  }

  /** Of two names with one key the table has an owner already. */
  ghost predicate NoneRepeated(rows: seq<Row>, names: seq<Text>)
    requires AllPoints(names)
  {
    forall i :: 0 <= i < |names| && HasKey(names[..i], KeyOf(names[i])) ==> Owner(rows, KeyOf(names[i])).Some?
  }

  /** Nothing is counted twice exactly when no new name is given twice. */
  lemma {:induction false} RepeatsExactly(rows: seq<Row>, names: seq<Text>)
    requires AllPoints(names)
    ensures Repeats(rows, names) == 0 <==> NoneRepeated(rows, names)
  {
    hide KeyOf, Points, Quote, NamesSize, NewNames, FirstNames, Owner, HasKey;
    NamesSizeZero();
    NoNamesNew(rows);
    NoNamesFirst(rows);
    if names != [] {
      var last := |names| - 1;
      var init := names[..last];
      RepeatsExactly(rows, init);
      FirstStep(rows, names);
      QuoteIsLong(names[last]);
      forall i | 0 <= i < last ensures init[..i] == names[..i] && init[i] == names[i] {
      }
      if NoneRepeated(rows, init) && (HasKey(init, KeyOf(names[last])) ==> Owner(rows, KeyOf(names[last])).Some?) {
        forall i | 0 <= i < |names| && HasKey(names[..i], KeyOf(names[i])) ensures Owner(rows, KeyOf(names[i])).Some? {
          assert i < last ==> init[..i] == names[..i] && init[i] == names[i];
        }
      }
    }
  }

  lemma QuoteIsLong(name: Text)
    ensures |Quote(name)| >= 2
  {
  }

  lemma NoNamesFirst(rows: seq<Row>)
    ensures FirstNames(rows, []) == []
  {
  }

  lemma RowIsSized(name: Text, entry: Text)
    requires Points(name)
    ensures RowSize(Row(KeyOf(name), entry)) == |Quote(name)| + |Quote(entry)| + 4
  {
    NameSize(name);
    hide KeyOf, NameOf, Quote;
  }

  function Times(n: nat, c: nat): nat { n * c }

  lemma TimesZero(c: nat)
    ensures Times(0, c) == 0
  {
  }

  lemma TimesStep(n: nat, c: nat)
    ensures Times(n + 1, c) == Times(n, c) + c
  {
  }

  lemma NamesSizeZero()
    ensures NamesSize([]) == 0
  {
  }

  /** The names another entry already owned, with that entry; the first twenty. */
  function OldNames(rows: seq<Row>, names: seq<Text>, entry: Text): (r: seq<Duplicate>)
    requires AllPoints(names)
    ensures |r| <= MAX_DUPLICATES
  {
    if names == [] then []
    else
      var last := |names| - 1;
      var before := OldNames(rows, names[..last], entry);
      match Owner(rows, KeyOf(NameAt(names, last)))
      case Some(previous) =>
        if |before| == MAX_DUPLICATES then before else before + [Duplicate(names[last], previous, entry)]
      case None => before
  }

  lemma {:induction false} OldNamesFull(rows: seq<Row>, names: seq<Text>, k: nat, entry: Text)
    requires AllPoints(names) && k <= |names| && |OldNames(rows, names[..k], entry)| == MAX_DUPLICATES
    ensures OldNames(rows, names, entry) == OldNames(rows, names[..k], entry)
  {
    hide KeyOf, Points, Owner;
    var last := |names| - 1;
    if k < |names| {
      assert names[..last][..k] == names[..k];
      OldNamesFull(rows, names[..last], k, entry);
    } else {
      assert names[..k] == names;
    }
  }

  lemma {:induction false} NoOldNames(rows: seq<Row>, names: seq<Text>, entry: Text)
    requires AllPoints(names) && |NewNames(rows, names)| == |names|
    ensures OldNames(rows, names, entry) == [] && NewNames(rows, names) == names
  {
    hide KeyOf, Points, Owner;
    if names != [] {
      NoOldNames(rows, names[..|names| - 1], entry);
      assert names == names[..|names| - 1] + [names[|names| - 1]];
    }
  }

  /** Rows whose key is in a range, in key order. */
  function RowsWithin(rows: seq<Row>, lower: seq<byte>, upper: Option<seq<byte>>): (r: seq<Row>)
  {
    if rows == [] then []
    else
      var last := |rows| - 1;
      RowsWithin(rows[..last], lower, upper) + if InRange(lower, upper, rows[last].key) then [rows[last]] else []
  }

  datatype Listed = Listed(name: Text, entry: Text)

  function Names(rows: seq<Row>): (r: seq<Listed>)
    ensures |r| == |rows|
  {
    seq(|rows|, i requires 0 <= i < |rows| => Listed(NameOf(rows[i].key), rows[i].entry))
  }

  class ClassDirectory {
    const budget: nat
    var entries: set<Text>
    var classes: seq<Row>
    var metadataBytes: int
    var rows: nat
    var failed: bool
    /** What names given more than once were counted too much. */
    ghost var excess: nat

    constructor (budget: nat)
      ensures Valid() && classes == [] && entries == {} && !failed && this.budget == budget && excess == 0
    {
      this.budget := budget;
      entries, classes, metadataBytes, rows, failed, excess := {}, [], 2, 0, false, 0;
    }

    /** Keys ascend, every owner is an entry that was added, and the byte count is the length of
        the directory as one encoded object, and what was counted too much. */
    ghost predicate Valid()
      reads this
    {
      && Ascending(classes) && rows == |classes| && metadataBytes == |DirectoryText(classes)| + excess
      && |entries| <= MAX_ENTRIES
      && forall key :: Owner(classes, key).Some? ==> Owner(classes, key).value in entries
    }

    /** Add an entry's class names: a name keeps its first owner, and the names that had one are
        reported. The byte count is exact unless a new name is given more than once. */
    method Add(names: seq<Text>, entry: Text) returns (r: Added)
      requires Valid() && AllPoints(names)
      modifies this
      ensures Valid()
      ensures entry == [] || entry in old(entries) ==> r == InvalidEntry
      ensures entry != [] && entry !in old(entries) && |old(entries)| == MAX_ENTRIES ==> r == TooManyEntries
      ensures entry != [] && entry !in old(entries) && |old(entries)| < MAX_ENTRIES ==>
                && classes == AllStored(old(classes), names, entry) && entries == old(entries) + {entry}
                && excess == old(excess) + Repeats(old(classes), names)
                && r == if |DirectoryText(classes)| + excess > budget then MetadataLimit
                        else Duplicates(OldNames(old(classes), names, entry))
      ensures entry == [] || entry in old(entries) || |old(entries)| == MAX_ENTRIES ==>
                classes == old(classes) && entries == old(entries) && excess == old(excess)
    {
      hide KeyOf, Points, NewNames, FirstNames, AllStored, OldNames, DirectoryText, Ascending, Repeats, Owner;
      if entry == [] || entry in entries {
        return InvalidEntry;
      }
      if |entries| >= MAX_ENTRIES {
        return TooManyEntries;
      }
      AddKeepsOwners(classes, entries, names, entry);
      entries := entries + {entry};
      ghost var before := classes;
      var added := Insert(names, entry);
      Count(names, entry, added, before);
      excess := excess + Repeats(before, names);
      if metadataBytes > budget {
        failed := true;
        return MetadataLimit;
      }
      if added == |names| {
        NoOldNames(before, names, entry);
        return Duplicates([]);
      }
      var duplicates := Report(names, entry, before);
      r := Duplicates(duplicates);
    }

    /** Insert the names that are not there; how many were. */
    method Insert(names: seq<Text>, entry: Text) returns (added: nat)
      requires AllPoints(names) && Ascending(classes)
      modifies this`classes
      ensures classes == AllStored(old(classes), names, entry) && Ascending(classes)
      ensures added == |FirstNames(old(classes), names)|
    {
      var before := |classes|;
      for i := 0 to |names|
        invariant classes == AllStored(old(classes), names[..i], entry)
      {
        assert names[..i + 1][..i] == names[..i];
        classes := Stored(classes, Row(KeyOf(names[i]), entry));
      }
      assert names[..|names|] == names;
      AllStoredSize(old(classes), names, entry);
      AllStoredOwner(old(classes), names, entry, []);
      added := |classes| - before;
    }

    /** Account for the names this entry owns now. */
    method Count(names: seq<Text>, entry: Text, added: nat, ghost before: seq<Row>)
      requires AllPoints(names) && Ascending(before)
      requires classes == AllStored(before, names, entry) && added == |FirstNames(before, names)|
      requires rows == |before|
      requires forall key :: Owner(before, key) != Some(entry)
      modifies this`metadataBytes, this`rows
      ensures metadataBytes - old(metadataBytes) ==
              |DirectoryText(classes)| - |DirectoryText(before)| + Repeats(before, names)
      ensures rows == |classes|
    {
      hide KeyOf, Points, Quote, RowsSize, Ascending, Owner, NamesSize, DirectoryText, Times;
      NamesSizeZero();
      NoNamesNew(before);
      var size := 0;
      for i := 0 to |names|
        invariant size == NamesSize(NewNames(before, names[..i]))
        invariant metadataBytes == old(metadataBytes) && rows == old(rows)
      {
        OwnerAfterAdd(before, names, entry, i);
        NewNamesStep(before, names, i);
        AllNewWhenAllAdded(before, names, i);
        if added == |names| || Owner(classes, KeyOf(names[i])) == Some(entry) {
          size := size + |Quote(names[i])|;
        }
      }
      assert names[..|names|] == names;
      DirectoryGrows(before, names, entry);
      metadataBytes := metadataBytes + size + Times(added, |Quote(entry)| + 4);
      if rows == 0 && added > 0 {
        metadataBytes := metadataBytes - 2;
      }
      rows := rows + added;
    }

    /** The first names that another entry owns. */
    method Report(names: seq<Text>, entry: Text, ghost before: seq<Row>) returns (duplicates: seq<Duplicate>)
      requires AllPoints(names) && Ascending(before) && classes == AllStored(before, names, entry)
      requires forall key :: Owner(before, key) != Some(entry)
      ensures duplicates == OldNames(before, names, entry)
    {
      hide KeyOf, Points, Ascending, Owner, OldNames;
      duplicates := [];
      NoNamesOld(before, entry);
      for i := 0 to |names|
        invariant duplicates == OldNames(before, names[..i], entry) && |duplicates| < MAX_DUPLICATES
      {
        OwnerAfterAdd(before, names, entry, i);
        OldNamesStep(before, names, i, entry);
        var previous := Owner(classes, KeyOf(names[i]));
        if previous.Some? && previous.value != entry {
          duplicates := duplicates + [Duplicate(names[i], previous.value, entry)];
          if |duplicates| == MAX_DUPLICATES {
            OldNamesFull(before, names, i + 1, entry);
            return;
          }
        }
      }
      assert names[..|names|] == names;
    }

    /** How many classes have names with the prefix, and a page of them in order. */
    method Page(prefix: Text, offset: nat, limit: nat) returns (total: nat, page: seq<Listed>)
      requires Points(prefix)
      ensures var found := RowsWithin(classes, KeyOf(prefix), Upper(KeyOf(prefix)));
              && total == |found|
              && page == if offset >= |found| then []
                         else Names(found[offset..if offset + limit <= |found| then offset + limit else |found|])
    {
      hide KeyOf, Upper, InRange;
      var lower := KeyOf(prefix);
      var upper := UpperBound(lower);
      var found: seq<Row> := [];
      for i := 0 to |classes|
        invariant found == RowsWithin(classes[..i], lower, upper)
      {
        assert classes[..i + 1][..i] == classes[..i];
        if InRange(lower, upper, classes[i].key) {
          found := found + [classes[i]];
        }
      }
      assert classes[..|classes|] == classes;
      total := |found|;
      page := if offset >= total then [] else Names(found[offset..if offset + limit <= total then offset + limit else total]);
    }
  }

  lemma AddKeepsOwners(rows: seq<Row>, entries: set<Text>, names: seq<Text>, entry: Text)
    requires Ascending(rows) && AllPoints(names) && entry !in entries
    requires forall key :: Owner(rows, key).Some? ==> Owner(rows, key).value in entries
    ensures forall key :: Owner(rows, key) != Some(entry)
    ensures var after := AllStored(rows, names, entry);
            forall key :: Owner(after, key).Some? ==> Owner(after, key).value in entries + {entry}
  {
    hide Owner, AllStored, Points, Ascending;
    var after := AllStored(rows, names, entry);
    forall key | Owner(after, key).Some? ensures Owner(after, key).value in entries + {entry} {
      AllStoredOwner(rows, names, entry, key);
    }
  }

  lemma DirectorySize(rows: seq<Row>)
    ensures |DirectoryText(rows)| == RowsSize(rows) + if rows == [] then 2 else 0
  {
    PairsSize(rows);
  }

  /** How the encoded directory grows by an entry's names. */
  lemma DirectoryGrows(rows: seq<Row>, names: seq<Text>, entry: Text)
    requires Ascending(rows) && AllPoints(names)
    ensures var after, news := AllStored(rows, names, entry), FirstNames(rows, names);
            && |after| == |rows| + |news|
            && |DirectoryText(after)| == |DirectoryText(rows)| + NamesSize(news) + Times(|news|, |Quote(entry)| + 4)
                                         - if rows == [] && news != [] then 2 else 0
  {
    hide *;
    AllStoredSize(rows, names, entry);
    DirectorySize(rows);
    DirectorySize(AllStored(rows, names, entry));
    NamesSizeZero();
    TimesZero(|Quote(entry)| + 4);
  }

  lemma OwnerAfterAdd(rows: seq<Row>, names: seq<Text>, entry: Text, i: nat)
    requires Ascending(rows) && AllPoints(names) && i < |names|
    ensures var key := KeyOf(names[i]);
            Owner(AllStored(rows, names, entry), key) == if Owner(rows, key) == None then Some(entry) else Owner(rows, key)
  {
    hide Owner, AllStored, Points, Ascending, KeyOf;
    AllStoredOwner(rows, names, entry, KeyOf(names[i]));
    assert HasKey(names, KeyOf(names[i]));
  }

  lemma NewNamesStep(rows: seq<Row>, names: seq<Text>, i: nat)
    requires AllPoints(names) && i < |names|
    ensures NamesSize(NewNames(rows, names[..i + 1])) ==
            NamesSize(NewNames(rows, names[..i])) + if Owner(rows, KeyOf(names[i])) == None then |Quote(names[i])| else 0
  {
    hide Owner, Points, KeyOf, NamesSize, Quote;
    assert names[..i + 1][..i] == names[..i];
    NamesSizeAppend(NewNames(rows, names[..i]), names[i]);
    assert NewNames(rows, names[..i]) + [] == NewNames(rows, names[..i]);
  }

  lemma {:induction false} AllNewWhenAllAdded(rows: seq<Row>, names: seq<Text>, i: nat)
    requires AllPoints(names) && i < |names|
    ensures |NewNames(rows, names)| == |names| ==> Owner(rows, KeyOf(names[i])) == None
  {
    hide Owner, Points, KeyOf;
    var last := |names| - 1;
    if i < last {
      AllNewWhenAllAdded(rows, names[..last], i);
    }
  }

  lemma OldNamesStep(rows: seq<Row>, names: seq<Text>, i: nat, entry: Text)
    requires AllPoints(names) && i < |names| && |OldNames(rows, names[..i], entry)| < MAX_DUPLICATES
    ensures OldNames(rows, names[..i + 1], entry) == OldNames(rows, names[..i], entry) +
            match Owner(rows, KeyOf(names[i]))
            case Some(previous) => [Duplicate(names[i], previous, entry)]
            case None => []
  {
    hide Owner, Points, KeyOf;
    assert names[..i + 1][..i] == names[..i];
    assert OldNames(rows, names[..i], entry) + [] == OldNames(rows, names[..i], entry);
  }

  lemma NoNamesNew(rows: seq<Row>)
    ensures NewNames(rows, []) == []
  {
  }

  lemma NoNamesOld(rows: seq<Row>, entry: Text)
    ensures OldNames(rows, [], entry) == []
  {
  }

  /** A page lists the classes whose names have the prefix in UTF-16, each once, in UTF-16 order. */
  lemma {:induction false} PageIsPrefix(rows: seq<Row>, prefix: Text, k: nat)
    requires Ascending(rows) && Points(prefix) && k < |rows|
    ensures var lower := KeyOf(prefix);
            rows[k] in RowsWithin(rows, lower, Upper(lower)) <==> lower <= rows[k].key
    ensures Ascending(RowsWithin(rows, KeyOf(prefix), Upper(KeyOf(prefix))))
  {
    hide KeyOf, Points;
    RowsWithinAre(rows, KeyOf(prefix), Upper(KeyOf(prefix)), rows[k]);
    RowsWithinAscend(rows, KeyOf(prefix), Upper(KeyOf(prefix)));
    RangeIsPrefix(KeyOf(prefix), rows[k].key);
  }

  lemma {:induction false} RowsWithinAre(rows: seq<Row>, lower: seq<byte>, upper: Option<seq<byte>>, row: Row)
    ensures row in RowsWithin(rows, lower, upper) <==> row in rows && InRange(lower, upper, row.key)
  {
    hide InRange;
    if rows != [] {
      RowsWithinAre(rows[..|rows| - 1], lower, upper, row);
      assert rows == rows[..|rows| - 1] + [rows[|rows| - 1]];
    }
  }

  lemma {:induction false} RowsWithinAscend(rows: seq<Row>, lower: seq<byte>, upper: Option<seq<byte>>)
    requires Ascending(rows)
    ensures Ascending(RowsWithin(rows, lower, upper))
  {
    hide InRange, Less;
    if rows != [] {
      var last := |rows| - 1;
      RowsWithinAscend(rows[..last], lower, upper);
      var found := RowsWithin(rows[..last], lower, upper);
      forall i | 0 <= i < |found| ensures Less(found[i].key, rows[last].key) {
        RowsWithinAre(rows[..last], lower, upper, found[i]);
        var j :| 0 <= j < last && rows[..last][j] == found[i];
        assert rows[j] == found[i];
      }
    }
  }
}
