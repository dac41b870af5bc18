/** Modified UTF-8 strings: the decoder built from a byte replacement and two library codecs,
    and the block-wise reader that must agree with it. */
module Mutf8 {
  import opened Bytes
  import opened ClassData

  /** Text as code points, UTF-16 as code units; both may hold lone surrogates. */
  type Text = seq<nat>

  predicate Units(units: seq<nat>) {
    forall i :: 0 <= i < |units| ==> units[i] < 0x1_0000
  }

  // ---------------------------------------------------------------------------------------
  // The encoding (section 4.4.7 of the Java Virtual Machine Specification)
  // ---------------------------------------------------------------------------------------

  function EncodeUnit(u: nat): (r: seq<byte>)
    requires u < 0x1_0000
    ensures 1 <= |r| <= 3
  {
    if 1 <= u < 0x80 then [u]
    else if u < 0x800 then [0xC0 + u / 64, 0x80 + u % 64]
    else [0xE0 + u / 4096, 0x80 + u / 64 % 64, 0x80 + u % 64]
  }

  function Encode(units: seq<nat>): seq<byte>
    requires Units(units)
  {
    if units == [] then [] else EncodeUnit(units[0]) + Encode(units[1..])
  }

  // ---------------------------------------------------------------------------------------
  // The library codecs
  // ---------------------------------------------------------------------------------------

  predicate Continues(data: seq<byte>, i: nat, low: nat) {
    i < |data| && low <= data[i] < 0xC0
  }

  /** The six bits of a continuation byte. */
  function Low6(data: seq<byte>, i: nat): nat
    requires Continues(data, i, 0x80)
  {
    data[i] - 0x80
  }

  /** One strict UTF-8 sequence, surrogates let through: the code point and its length. */
  function DecodePoint(data: seq<byte>): (r: Option<(nat, nat)>)
    requires data != []
    ensures r.Some? ==> 1 <= r.value.1 <= |data|
  {
    var b: nat := data[0];
    if b < 0x80 then Some((b, 1))
    else if 0xC2 <= b < 0xE0 then
      if Continues(data, 1, 0x80) then Some((64 * (b - 0xC0) + Low6(data, 1), 2)) else None
    else if 0xE0 <= b < 0xF0 then
      if Continues(data, 1, if b == 0xE0 then 0xA0 else 0x80) && Continues(data, 2, 0x80)
      then Some((4096 * (b - 0xE0) + 64 * Low6(data, 1) + Low6(data, 2), 3)) else None
    else if 0xF0 <= b < 0xF5 then
      if Continues(data, 1, if b == 0xF0 then 0x90 else 0x80) && (b == 0xF4 ==> data[1] < 0x90)
         && Continues(data, 2, 0x80) && Continues(data, 3, 0x80)
      then Some((0x4_0000 * (b - 0xF0) + 4096 * Low6(data, 1) + 64 * Low6(data, 2) + Low6(data, 3), 4)) else None
    else None
  }

  function DecodeUtf8(data: seq<byte>): Option<Text> {
    if data == [] then Some([])
    else
      match DecodePoint(data)
      case None => None
      case Some((point, n)) => Prefixed(point, DecodeUtf8(data[n..]))
  }

  function Prefixed(point: nat, rest: Option<Text>): Option<Text> {
    if rest.None? then None else Some([point] + rest.value)
  }

  /** UTF-16 code units of a text. */
  function Utf16(text: Text): seq<nat> {
    if text == [] then []
    else
      (if text[0] < 0x1_0000 then [text[0]]
       else [0xD800 + (text[0] - 0x1_0000) / 1024, 0xDC00 + (text[0] - 0x1_0000) % 1024]) + Utf16(text[1..])
  }

  predicate High(u: nat) {
    0xD800 <= u < 0xDC00
  }

  predicate Low(u: nat) {
    0xDC00 <= u < 0xE000
  }

  /** The text of some UTF-16 code units: pairs become one code point, lone surrogates stay. */
  function Combine(units: seq<nat>): Text {
    if units == [] then []
    else if |units| >= 2 && High(units[0]) && Low(units[1]) then
      [0x1_0000 + 1024 * (units[0] - 0xD800) + (units[1] - 0xDC00)] + Combine(units[2..])
    else [units[0]] + Combine(units[1..])
  }

  // ---------------------------------------------------------------------------------------
  // The decoder
  // ---------------------------------------------------------------------------------------

  /** Every `C0 80` becomes a zero byte. */
  function ReplaceNul(raw: seq<byte>): seq<byte> {
    if raw == [] then []
    else if |raw| >= 2 && raw[0] == 0xC0 && raw[1] == 0x80 then [0] + ReplaceNul(raw[2..])
    else [raw[0]] + ReplaceNul(raw[1..])
  }

  predicate AllBelow(xs: seq<nat>, limit: nat) {
    forall i :: 0 <= i < |xs| ==> xs[i] < limit
  }

  /** The decoder: UTF-8 after the replacement, a short way out for text without surrogates,
      else by way of UTF-16 with a length and a four-byte check. */
  function Decode(raw: seq<byte>, length: nat): Option<Text> {
    var replaced := ReplaceNul(raw);
    match DecodeUtf8(replaced)
    case None => None
    case Some(text) =>
      if |text| == length && AllBelow(text, 0xD800) then Some(text)
      else
        var units := Utf16(text);
        if |units| != length || exists i :: 0 <= i < |replaced| && replaced[i] >= 0xF0 then None
        else Some(Combine(units))
  }

  // ---------------------------------------------------------------------------------------
  // The decoder inverts the encoding, and accepts nothing else
  // ---------------------------------------------------------------------------------------

  /** One unit at the front of a string, read by the rules of the encoding. */
  function ParseUnit(raw: seq<byte>): (r: Option<(nat, nat)>)
    requires raw != []
    ensures r.Some? ==> 1 <= r.value.1 <= |raw|
  {
    if |raw| >= 2 && raw[0] == 0xC0 && raw[1] == 0x80 then Some((0, 2))
    else if raw[0] >= 0xF0 then None
    else DecodePoint(raw)
  }

  function Parse(raw: seq<byte>): Option<seq<nat>> {
    if raw == [] then Some([])
    else
      match ParseUnit(raw)
      case None => None
      case Some((unit, n)) => Prefixed(unit, Parse(raw[n..]))
  }

  predicate NoNul(raw: seq<byte>) {
    forall i :: 0 <= i < |raw| ==> raw[i] != 0
  }

  lemma ParseUnitInverts(u: nat, rest: seq<byte>)
    requires u < 0x1_0000
    ensures ParseUnit(EncodeUnit(u) + rest) == Some((u, |EncodeUnit(u)|))
  {
    var encoded := EncodeUnit(u);
    var data := encoded + rest;
    assert data[0] == encoded[0];
    if |encoded| == 2 {
      assert data[1] == encoded[1];
    } else if |encoded| == 3 {
      assert data[1] == encoded[1] && data[2] == encoded[2];
      UnitParts(u);
    }
  }

  lemma UnitParts(u: nat)
    ensures u == 4096 * (u / 4096) + 64 * (u / 64 % 64) + u % 64
  {
    assert u / 64 / 64 == u / 4096;
  }

  lemma {:induction false} ParseInverts(units: seq<nat>)
    requires Units(units)
    ensures Parse(Encode(units)) == Some(units)
  {
    if units != [] {
      var first, rest := EncodeUnit(units[0]), Encode(units[1..]);
      ParseUnitInverts(units[0], rest);
      ParseInverts(units[1..]);
      assert Encode(units) == first + rest && (first + rest)[|first|..] == rest;
      assert [units[0]] + units[1..] == units;
    }
  }

  lemma EncodeUnitInverts(raw: seq<byte>)
    requires raw != [] && raw[0] != 0 && ParseUnit(raw).Some?
    ensures var (u, n) := ParseUnit(raw).value;
            u < 0x1_0000 && EncodeUnit(u) == raw[..n]
  {
    var (u, n) := ParseUnit(raw).value;
    FrontOf(raw, n);
    if n == 3 {
      ThreeBytes(raw[0] - 0xE0, raw[1] - 0x80, raw[2] - 0x80);
    } else if n == 2 && u != 0 {
      TwoBytes(raw[0] - 0xC0, raw[1] - 0x80);
    }
  }

  lemma FrontOf(raw: seq<byte>, n: nat)
    requires 1 <= n <= |raw|
    ensures n == 1 ==> raw[..n] == [raw[0]]
    ensures n == 2 ==> raw[..n] == [raw[0], raw[1]]
    ensures n == 3 ==> raw[..n] == [raw[0], raw[1], raw[2]]
  {
  }

  lemma TwoBytes(a: int, b: int)
    requires 0 <= a && 0 <= b < 64
    ensures var u := 64 * a + b; u / 64 == a && u % 64 == b
  {
  }

  lemma ThreeBytes(a: int, b: int, c: int)
    requires 0 <= a && 0 <= b < 64 && 0 <= c < 64
    ensures var u := 4096 * a + 64 * b + c; u / 4096 == a && u / 64 % 64 == b && u % 64 == c
  {
    var high := 64 * a + b;
    TwoBytes(high, c);
    TwoBytes(a, b);
    assert 4096 * a + 64 * b + c == 64 * high + c;
    TwoBytesOf(4096 * a + 64 * b + c, a);
  }

  lemma TwoBytesOf(u: int, a: int)
    requires 4096 * a <= u < 4096 * a + 4096
    ensures u / 4096 == a
  {
  }

  lemma {:induction false} ParsedIsEncoded(raw: seq<byte>)
    requires NoNul(raw) && Parse(raw).Some?
    ensures Units(Parse(raw).value) && Encode(Parse(raw).value) == raw
  {
    hide EncodeUnit;
    hide ParseUnit;
    if raw != [] {
      EncodeUnitInverts(raw);
      var (u, n) := ParseUnit(raw).value;
      var rest := raw[n..];
      assert forall i :: 0 <= i < |rest| ==> rest[i] == raw[i + n];
      ParsedIsEncoded(rest);
      assert Parse(raw).value[1..] == Parse(rest).value;
      assert raw == raw[..n] + rest;
    }
  }

  /** A front without `C0` is not touched by the replacement. */
  lemma {:induction false} ReplaceFront(raw: seq<byte>, n: nat)
    requires n <= |raw| && forall i :: 0 <= i < n ==> raw[i] != 0xC0
    ensures ReplaceNul(raw) == raw[..n] + ReplaceNul(raw[n..])
  {
    if n > 0 {
      ReplaceFront(raw[1..], n - 1);
      assert raw[1..][n - 1..] == raw[n..] && raw[..n] == [raw[0]] + raw[1..][..n - 1];
    }
  }

  /** A decoded sequence is decided by its own bytes. */
  lemma DecodePointFront(raw: seq<byte>, rest: seq<byte>)
    requires raw != [] && DecodePoint(raw).Some?
    ensures DecodePoint(raw[..DecodePoint(raw).value.1] + rest) == DecodePoint(raw)
    ensures raw[0] < 0xF0 ==> forall i :: 0 <= i < DecodePoint(raw).value.1 ==> raw[i] != 0xC0
  {
  }

  /** A unit that parses is decoded to the same value after the replacement. */
  lemma ReplaceParsed(raw: seq<byte>)
    requires raw != [] && ParseUnit(raw).Some?
    ensures var (u, n) := ParseUnit(raw).value;
            var m := if raw[0] == 0xC0 then 1 else n;
            m <= |ReplaceNul(raw)| && DecodePoint(ReplaceNul(raw)) == Some((u, m))
            && ReplaceNul(raw)[m..] == ReplaceNul(raw[n..])
  {
    var n := ParseUnit(raw).value.1;
    if raw[0] == 0xC0 {
      assert ReplaceNul(raw)[1..] == ReplaceNul(raw[2..]);
    } else {
      DecodePointFront(raw, ReplaceNul(raw[n..]));
      hide DecodePoint;
      ReplaceFront(raw, n);
    }
  }

  /** The first two continuation bytes, if a lead byte wants them, fail after the replacement
      as they fail before it. */
  lemma ReplaceRejected(raw: seq<byte>)
    requires raw != [] && raw[0] != 0 && raw[0] < 0xF0 && ParseUnit(raw).None?
    ensures ReplaceNul(raw) != [] && DecodePoint(ReplaceNul(raw)).None?
  {
    var b := raw[0];
    ReplaceHead(raw);
    if b >= 0xC2 {
      ReplaceFront(raw, 1);
      ReplaceHead(raw[1..]);
      if |raw| > 1 && Continues(raw, 1, 0x80) {
        ReplaceFront(raw, 2);
        ReplaceHead(raw[2..]);
      }
    } else if b == 0xC0 {
      assert ReplaceNul(raw) == [b] + ReplaceNul(raw[1..]);
    }
  }

  /** A replacement begins with the first byte, or with zero for `C0`. */
  lemma ReplaceHead(raw: seq<byte>)
    ensures raw == [] ==> ReplaceNul(raw) == []
    ensures raw != [] ==> ReplaceNul(raw) != []
    ensures raw != [] ==> ReplaceNul(raw)[0] == raw[0] || (raw[0] == 0xC0 && ReplaceNul(raw)[0] == 0)
  {
  }

  lemma {:induction false} EncodedBytes(units: seq<nat>)
    requires Units(units)
    ensures NoNul(Encode(units)) && forall i :: 0 <= i < |Encode(units)| ==> Encode(units)[i] < 0xF0
    ensures |Encode(units)| <= 3 * |units|
  {
    if units != [] {
      EncodedBytes(units[1..]);
      EncodedUnitBytes(units[0]);
      hide EncodeUnit;
      var first, rest := EncodeUnit(units[0]), Encode(units[1..]);
      assert forall i :: 0 <= i < |first + rest| ==>
        (first + rest)[i] == if i < |first| then first[i] else rest[i - |first|];
    }
  }

  lemma EncodedUnitBytes(u: nat)
    requires u < 0x1_0000
    ensures forall i :: 0 <= i < |EncodeUnit(u)| ==> 0 < EncodeUnit(u)[i] < 0xF0
  {
  }

  /** Without four-byte sequences the library decoder reads exactly the parsed units. */
  lemma {:induction false} DecodedIsParsed(raw: seq<byte>)
    requires NoNul(raw) && forall i :: 0 <= i < |raw| ==> raw[i] < 0xF0
    ensures DecodeUtf8(ReplaceNul(raw)) == Parse(raw)
  {
    if raw != [] {
      if ParseUnit(raw).None? {
        ReplaceRejected(raw);
      } else {
        var n := ParseUnit(raw).value.1;
        assert forall i :: 0 <= i < |raw[n..]| ==> raw[n..][i] == raw[i + n];
        ReplaceParsed(raw);
        hide ParseUnit;
        hide DecodePoint;
        DecodedIsParsed(raw[n..]);
      }
    }
  }

  /** A four-byte sequence shows in the decoded text. */
  lemma {:induction false} FourBytesShow(data: seq<byte>, i: nat)
    requires DecodeUtf8(data).Some? && i < |data| && data[i] >= 0xF0
    ensures !AllBelow(DecodeUtf8(data).value, 0x1_0000)
  {
    PointBytes(data);
    var (point, n) := DecodePoint(data).value;
    var text := DecodeUtf8(data).value;
    assert text[0] == point && text[1..] == DecodeUtf8(data[n..]).value;
    if i >= n {
      FourBytesShow(data[n..], i - n);
      var k :| 0 <= k < |text[1..]| && text[1..][k] >= 0x1_0000;
      assert text[k + 1] >= 0x1_0000;
    }
  }

  lemma PointBytes(data: seq<byte>)
    requires data != [] && DecodePoint(data).Some?
    ensures var (point, n) := DecodePoint(data).value;
            data[0] >= 0xF0 ==> point >= 0x1_0000
    ensures forall i :: 1 <= i < DecodePoint(data).value.1 ==> data[i] < 0xC0
  {
  }

  lemma {:induction false} ReplaceKeeps(raw: seq<byte>, i: nat) returns (j: nat)
    requires i < |raw| && raw[i] > 0xC0
    ensures j < |ReplaceNul(raw)| && ReplaceNul(raw)[j] == raw[i]
  {
    if |raw| >= 2 && raw[0] == 0xC0 && raw[1] == 0x80 {
      j := ReplaceKeeps(raw[2..], i - 2);
      j := j + 1;
    } else if i == 0 {
      j := 0;
    } else {
      j := ReplaceKeeps(raw[1..], i - 1);
      j := j + 1;
    }
  }

  lemma {:induction false} PlainUnits(units: seq<nat>)
    requires Units(units)
    ensures Utf16(units) == units
    ensures AllBelow(units, 0xD800) ==> Combine(units) == units
  {
    if units != [] {
      PlainUnits(units[1..]);
      assert AllBelow(units, 0xD800) ==> AllBelow(units[1..], 0xD800);
    }
  }

  /** The decoder, on the bytes before a terminator: a string is accepted exactly when it is
      the encoding of `length` code units, and decodes to their text. */
  lemma DecodeIsExact(raw: seq<byte>, length: nat)
    requires NoNul(raw)
    ensures Decode(raw, length) ==
            if Parse(raw).Some? && |Parse(raw).value| == length then Some(Combine(Parse(raw).value)) else None
  {
    hide DecodeUtf8;
    hide Parse;
    hide Combine;
    hide Utf16;
    var replaced := ReplaceNul(raw);
    if i :| 0 <= i < |raw| && raw[i] >= 0xF0 {
      var j := ReplaceKeeps(raw, i);
      if Parse(raw).Some? {
        ParsedIsEncoded(raw);
        EncodedBytes(Parse(raw).value);
      }
      if DecodeUtf8(replaced).Some? {
        FourBytesShow(replaced, j);
        BelowWeakens(DecodeUtf8(replaced).value);
      }
    } else {
      DecodedIsParsed(raw);
      if Parse(raw).Some? {
        ParsedIsEncoded(raw);
        PlainUnits(Parse(raw).value);
        ReplacedBelow(raw);
      }
    }
  }

  lemma BelowWeakens(text: Text)
    ensures AllBelow(text, 0xD800) ==> AllBelow(text, 0x1_0000)
  {
  }

  lemma {:induction false} ReplacedBelow(raw: seq<byte>)
    requires forall i :: 0 <= i < |raw| ==> raw[i] < 0xF0
    ensures forall i :: 0 <= i < |ReplaceNul(raw)| ==> ReplaceNul(raw)[i] < 0xF0
  {
    if |raw| >= 2 && raw[0] == 0xC0 && raw[1] == 0x80 {
      ReplacedBelow(raw[2..]);
    } else if raw != [] {
      ReplacedBelow(raw[1..]);
    }
  }

  /** Decoding inverts encoding for every sequence of UTF-16 code units, lone surrogates
      included, and keeps those units. */
  lemma DecodeInvertsEncode(units: seq<nat>)
    requires Units(units)
    ensures Decode(Encode(units), |units|) == Some(Combine(units)) && Utf16(Combine(units)) == units
  {
    EncodedBytes(units);
    ParseInverts(units);
    DecodeIsExact(Encode(units), |units|);
    CombineKeepsUnits(units);
  }

  lemma {:induction false} CombineKeepsUnits(units: seq<nat>)
    requires Units(units)
    ensures Utf16(Combine(units)) == units
  {
    hide Utf16;
    if units == [] {
      NoUnits();
    } else if |units| >= 2 && High(units[0]) && Low(units[1]) {
      CombineKeepsUnits(units[2..]);
      PairKept(units[0], units[1], Combine(units[2..]));
      assert units == [units[0], units[1]] + units[2..];
    } else {
      CombineKeepsUnits(units[1..]);
      UnitKept(units[0], Combine(units[1..]));
      assert units == [units[0]] + units[1..];
    }
  }

  lemma NoUnits()
    ensures Utf16([]) == []
  {
  }

  lemma UnitKept(u: nat, rest: Text)
    requires u < 0x1_0000
    ensures Utf16([u] + rest) == [u] + Utf16(rest)
  {
    assert ([u] + rest)[1..] == rest;
  }

  lemma PairKept(high: nat, low: nat, rest: Text)
    requires High(high) && Low(low)
    ensures Utf16([0x1_0000 + 1024 * (high - 0xD800) + (low - 0xDC00)] + rest) == [high, low] + Utf16(rest)
  {
    var c := 0x1_0000 + 1024 * (high - 0xD800) + (low - 0xDC00);
    assert ([c] + rest)[1..] == rest;
    assert (c - 0x1_0000) / 1024 == high - 0xD800 && (c - 0x1_0000) % 1024 == low - 0xDC00;
  }

  /** An accepted string takes at most three bytes a code unit. */
  lemma DecodeBoundsBytes(raw: seq<byte>, length: nat)
    requires NoNul(raw) && Decode(raw, length).Some?
    ensures |raw| <= 3 * length
  {
    DecodeIsExact(raw, length);
    ParsedIsEncoded(raw);
    EncodedBytes(Parse(raw).value);
  }

  // ---------------------------------------------------------------------------------------
  // Reading a string item
  // ---------------------------------------------------------------------------------------

  /** The first zero byte at or after `offset`. */
  function FindNul(data: seq<byte>, offset: nat): (r: Option<nat>)
    ensures r.Some? ==> offset <= r.value < |data| && data[r.value] == 0 && NoNul(data[offset..r.value])
    ensures r.None? && offset <= |data| ==> NoNul(data[offset..])
    decreases |data| - offset
  {
    if offset >= |data| then None
    else if data[offset] == 0 then Some(offset)
    else
      var r := FindNul(data, offset + 1);
      assert r.Some? ==> data[offset..r.value] == [data[offset]] + data[offset + 1..r.value];
      assert r.None? ==> data[offset..] == [data[offset]] + data[offset + 1..];
      r
  }

  /** The string item at `offset`: its length, then its bytes up to the terminator. */
  function StringAt(data: seq<byte>, offset: nat): Option<Text> {
    match Leb(data, offset)
    case None => None
    case Some((length, start)) =>
      match FindNul(data, start)
      case None => None
      case Some(end) => Decode(data[start..end], length)
  }

  const BLOCK := 512

  /** The bytes read so far hold no terminator, so the search may go on from where they end. */
  ghost predicate Collected(data: seq<byte>, start: nat, position: nat, raw: seq<byte>) {
    start <= position <= |data| && raw == data[start..position] && NoNul(raw)
    && FindNul(data, start) == FindNul(data, position)
  }

  /** What the search found before the end of a block. */
  function Kept(block: seq<byte>, end: Option<nat>): seq<byte>
    requires end.Some? ==> end.value <= |block|
  {
    if end.Some? then block[..end.value] else block
  }

  /** One block more: the bytes up to its terminator, if it has one, else all of it. */
  lemma BlockStep(data: seq<byte>, start: nat, position: nat, raw: seq<byte>, n: nat)
    requires Collected(data, start, position, raw) && position + n <= |data|
    ensures var block := data[position..position + n]; var end := FindNul(block, 0); var after := raw + Kept(block, end);
            && start + |after| <= |data| && after == data[start..start + |after|] && NoNul(after)
            && if end.Some? then FindNul(data, start) == Some(start + |after|)
               else Collected(data, start, position + n, after)
  {
    hide FindNul;
    var block := data[position..position + n];
    var end := FindNul(block, 0);
    FindInBlock(data, position, n);
    var after := raw + Kept(block, end);
    assert after == data[start..position + |Kept(block, end)|];
    assert Kept(block, end) == if end.Some? then block[0..end.value] else block[0..];
  }

  lemma NothingCollected(data: seq<byte>, start: nat)
    requires start <= |data|
    ensures Collected(data, start, start, [])
  {
  }

  /** The reader of immutable snapshots: blocks of 512 bytes, given up as soon as the bytes so
      far exceed three a code unit. It agrees with the whole-string reader on every input. */
  method DeferredName(data: seq<byte>, offset: nat) returns (r: Option<Text>)
    ensures r == StringAt(data, offset)
  {
    hide Decode, Leb, FindNul, Collected, Kept, NoNul;
    var header := ReadLeb(data, offset);
    if header.None? {
      return None;
    }
    var (length, start) := header.value;
    var raw: seq<byte>, position := [], start;
    NothingCollected(data, start);
    while position < |data|
      invariant start <= position <= |data| && Collected(data, start, position, raw)
    {
      var n := if BLOCK <= |data| - position then BLOCK else |data| - position;
      var block := data[position..position + n];
      var end := FindNul(block, 0);
      BlockStep(data, start, position, raw, n);
      raw := raw + Kept(block, end);
      if |raw| > 3 * length {
        TooLong(data, start, raw, length);
        return None;
      }
      if end.Some? {
        return Decode(raw, length);
      }
      position := position + n;
    }
    FindPastEnd(data, position);
    CollectedEnd(data, start, position, raw);
    return None;
  }

  lemma CollectedEnd(data: seq<byte>, start: nat, position: nat, raw: seq<byte>)
    requires Collected(data, start, position, raw)
    ensures FindNul(data, start) == FindNul(data, position)
  {
  }

  lemma FindPastEnd(data: seq<byte>, offset: nat)
    requires offset >= |data|
    ensures FindNul(data, offset) == None
  {
  }

  /** Searching a block first finds the same terminator. */
  lemma FindInBlock(data: seq<byte>, position: nat, n: nat)
    requires position + n <= |data|
    ensures var end := FindNul(data[position..position + n], 0);
            FindNul(data, position) == if end.Some? then Some(position + end.value) else FindNul(data, position + n)
  {
    FindInBlockFrom(data, position, n, 0);
  }

  lemma {:induction false} FindInBlockFrom(data: seq<byte>, position: nat, n: nat, k: nat)
    requires position + n <= |data| && k <= n
    ensures var end := FindNul(data[position..position + n], k);
            FindNul(data, position + k) == if end.Some? then Some(position + end.value) else FindNul(data, position + n)
    decreases n - k
  {
    if k < n && data[position + k] != 0 {
      FindInBlockFrom(data, position, n, k + 1);
    }
  }

  /** Once the bytes exceed three a code unit the whole string cannot be accepted. */
  lemma TooLong(data: seq<byte>, start: nat, raw: seq<byte>, length: nat)
    requires start + |raw| <= |data| && raw == data[start..start + |raw|] && NoNul(raw) && |raw| > 3 * length
    ensures match FindNul(data, start)
            case None => true
            case Some(end) => Decode(data[start..end], length) == None
  {
    hide Decode;
    hide FindNul;
    var end := FindNul(data, start);
    if end.Some? {
      FindInBlock(data, start, |raw|);
      if Decode(data[start..end.value], length).Some? {
        DecodeBoundsBytes(data[start..end.value], length);
      }
    }
  }
}
