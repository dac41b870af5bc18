/** Continuations: an offset signed for one session and one selector, as URL-safe base64. */
module ReferenceCursors {
  import opened Bytes
  import J = JsonText

  const MAX_CURSOR_LENGTH := 1024

  /** Offsets are below 2^63. */
  const OFFSETS := 0x8000_0000_0000_0000

  // ---------------------------------------------------------------------------------------
  // Base64
  // ---------------------------------------------------------------------------------------

  type sextet = n: int | 0 <= n < 64

  function Letter(n: sextet): char {
    if n < 26 then 'A' + n as char
    else if n < 52 then 'a' + (n - 26) as char
    else if n < 62 then '0' + (n - 52) as char
    else if n == 62 then '-' else '_'
  }

  /** Both alphabets are read, as both end up in the standard one. */
  function Sextet(c: char): Option<sextet> {
    if 'A' <= c <= 'Z' then Some(c as int - 'A' as int)
    else if 'a' <= c <= 'z' then Some(c as int - 'a' as int + 26)
    else if '0' <= c <= '9' then Some(c as int - '0' as int + 52)
    else if c == '-' || c == '+' then Some(62)
    else if c == '_' || c == '/' then Some(63)
    else None
  }

  function Encode64(data: seq<byte>): (r: string)
    ensures |r| == 4 * ((|data| + 2) / 3)
  {
    if data == [] then ""
    else if |data| == 1 then [Letter(First(data[0])), Letter(Second(data[0], 0)), '=', '=']
    else if |data| == 2 then
      [Letter(First(data[0])), Letter(Second(data[0], data[1])), Letter(Third(data[1], 0)), '=']
    else
      [Letter(First(data[0])), Letter(Second(data[0], data[1])), Letter(Third(data[1], data[2])),
       Letter(Fourth(data[2]))] + Encode64(data[3..])
  }

  function First(a: byte): sextet { a / 4 }

  function Second(a: byte, b: byte): sextet { a % 4 * 16 + b / 16 }

  function Third(b: byte, c: byte): sextet { b % 16 * 4 + c / 64 }

  function Fourth(c: byte): sextet { c % 64 }

  function Byte0(a: sextet, b: sextet): byte { a * 4 + b / 16 }

  function Byte1(b: sextet, c: sextet): byte { b % 16 * 16 + c / 4 }

  function Byte2(c: sextet, d: sextet): byte { c % 4 * 64 + d }

  /** Letters in fours; only the last four may be padded. */
  function Decode64(text: string): Option<seq<byte>> {
    if text == [] then Some([])
    else if |text| < 4 then None
    else
      var a, b, c, d := Sextet(text[0]), Sextet(text[1]), Sextet(text[2]), Sextet(text[3]);
      if a == None || b == None then None
      else if c.Some? && d.Some? then
        match Decode64(text[4..])
        case Some(rest) =>
          Some([Byte0(a.value, b.value), Byte1(b.value, c.value), Byte2(c.value, d.value)] + rest)
        case None => None
      else if |text| > 4 || text[3] != '=' then None
      else if c.Some? then Some([Byte0(a.value, b.value), Byte1(b.value, c.value)])
      else if text[2] == '=' then Some([Byte0(a.value, b.value)]) else None
  }

  lemma SextetLetter(n: sextet)
    ensures Sextet(Letter(n)) == Some(n) && Letter(n) != '='
  {
  }

  lemma BytesBack(a: byte, b: byte, c: byte)
    ensures Byte0(First(a), Second(a, b)) == a
    ensures Byte1(Second(a, b), Third(b, c)) == b
    ensures Byte2(Third(b, c), Fourth(c)) == c
  {
  }

  lemma {:induction false} Decode64Inverts(data: seq<byte>)
    ensures Decode64(Encode64(data)) == Some(data)
  {
    hide Letter, Sextet, First, Second, Third, Fourth, Byte0, Byte1, Byte2;
    if data != [] {
      var b, c := if |data| > 1 then data[1] else 0, if |data| > 2 then data[2] else 0;
      BytesBack(data[0], b, c);
      SextetLetter(First(data[0]));
      SextetLetter(Second(data[0], b));
      SextetLetter(Third(b, c));
      SextetLetter(Fourth(c));
      NoPadding();
      if |data| > 2 {
        Decode64Inverts(data[3..]);
        assert Encode64(data)[4..] == Encode64(data[3..]);
        assert data == [data[0], data[1], data[2]] + data[3..];
      } else if |data| == 2 {
        assert data == [data[0], data[1]];
      } else {
        assert data == [data[0]];
      }
    }
  }

  lemma NoPadding()
    ensures Sextet('=') == None
  {
  }

  // ---------------------------------------------------------------------------------------
  // The payload
  // ---------------------------------------------------------------------------------------

  function Raw(s: string): (r: seq<byte>)
    requires J.Ascii(s)
    ensures |r| == |s|
  {
    seq(|s|, i requires 0 <= i < |s| => s[i] as byte)
  }

  /** The digits of an offset, as bytes. */
  function RawDigits(n: nat): (r: seq<byte>)
    ensures r != []
  {
    if n < 10 then [48 + n] else RawDigits(n / 10) + [48 + n % 10]
  }

  lemma {:induction false} RawDigitsAre(n: nat)
    ensures J.Ascii(J.Digits(n)) && RawDigits(n) == Raw(J.Digits(n)) && |RawDigits(n)| == |J.Digits(n)|
  {
    J.DigitsAscii(n);
    if n >= 10 {
      RawDigitsAre(n / 10);
    }
  }

  /** Digits without a leading zero. */
  function ParseDigits(s: seq<byte>): Option<nat> {
    if s == [] then None
    else
      var last := |s| - 1;
      if !(48 <= s[last] < 58) then None
      else if last == 0 then Some(s[0] - 48)
      else
        match ParseDigits(s[..last])
        case Some(n) => if n == 0 then None else Some(10 * n + (s[last] - 48))
        case None => None
  }

  lemma {:induction false} ParseInverts(n: nat)
    ensures ParseDigits(RawDigits(n)) == Some(n)
  {
    var s := RawDigits(n);
    if n >= 10 {
      ParseInverts(n / 10);
      assert s[..|s| - 1] == RawDigits(n / 10);
    }
  }

  const OPENING: seq<byte> := [91, 49, 44, 34]

  const MIDDLE: seq<byte> := [34, 44]

  /** The selector of a query: 64 hexadecimal digits. */
  ghost predicate Selector(selector: string) {
    |selector| == 64 && J.Ascii(selector)
  }

  /** `[1,"<selector>",<offset>]` without spaces. */
  function Spelled(selector: string, offset: nat): seq<byte>
    requires Selector(selector)
  {
    OPENING + Raw(selector) + MIDDLE + RawDigits(offset) + [93]
  }

  /** What the JSON reader makes of a payload when it is an array of a whole number, a string and a
      whole number. */
  datatype Triple = Triple(version: int, selector: string, offset: int)

  type Reader = seq<byte> -> Option<Triple>

  /** The reader reads what the writer spells; whatever else it reads is open. */
  ghost predicate ReadsBack(read: Reader) {
    forall selector, offset: nat | Selector(selector) ::
      read(Spelled(selector, offset)) == Some(Triple(1, selector, offset))
  }

  function Chars(bytes: seq<byte>): string {
    seq(|bytes|, i requires 0 <= i < |bytes| => bytes[i] as char)
  }

  /** A reader of just those spellings. */
  function Strict(): Reader {
    (payload: seq<byte>) =>
      if |payload| < 71 || payload[..4] != OPENING || payload[68..70] != MIDDLE || payload[|payload| - 1] != 93 then None
      else
        match ParseDigits(payload[70..|payload| - 1])
        case Some(n) => Some(Triple(1, Chars(payload[4..68]), n))
        case None => None
  }

  lemma CharsBack(s: string)
    requires J.Ascii(s)
    ensures Chars(Raw(s)) == s
  {
  }

  /** What is asked of the reader can be met. */
  lemma StrictReadsBack()
    ensures ReadsBack(Strict())
  {
    forall selector, offset: nat | Selector(selector)
      ensures Strict()(Spelled(selector, offset)) == Some(Triple(1, selector, offset))
    {
      SpelledParts(selector, offset);
      ParseInverts(offset);
      CharsBack(selector);
    }
  }

  lemma SpelledParts(selector: string, offset: nat)
    requires Selector(selector)
    ensures var p := Spelled(selector, offset);
            && |p| == 71 + |RawDigits(offset)| && p[..4] == OPENING && p[4..68] == Raw(selector)
            && p[68..70] == MIDDLE && p[70..|p| - 1] == RawDigits(offset) && p[|p| - 1] == 93
  {
    hide RawDigits, Raw;
  }

  /** The session's key, as the function that signs with it, the digest of the query, and the JSON
      reader. */
  datatype Codec = Codec(sign: seq<byte> -> seq<byte>, selector: string, read: Reader)
  {
    /** Signatures are 32 bytes and the reader reads payloads. */
    ghost predicate Valid() {
      (forall payload :: |sign(payload)| == 32) && Selector(selector) && ReadsBack(read)
    }
  }

  function Payload(codec: Codec, offset: nat): seq<byte>
    requires codec.Valid()
  {
    Spelled(codec.selector, offset)
  }

  lemma PayloadParts(codec: Codec, offset: nat)
    requires codec.Valid()
    ensures var p := Payload(codec, offset);
            && |p| == 71 + |RawDigits(offset)| && p[..4] == OPENING && p[4..68] == Raw(codec.selector)
            && p[68..70] == MIDDLE && p[70..|p| - 1] == RawDigits(offset) && p[|p| - 1] == 93
  {
    hide RawDigits, Raw, ReadsBack;
    SpelledParts(codec.selector, offset);
  }

  // ---------------------------------------------------------------------------------------
  // Cursors
  // ---------------------------------------------------------------------------------------

  function Signed(codec: Codec, offset: nat): seq<byte>
    requires codec.Valid()
  {
    Payload(codec, offset) + codec.sign(Payload(codec, offset))
  }

  function Encode(codec: Codec, offset: nat): string
    requires codec.Valid()
  {
    Encode64(Signed(codec, offset))
  }

  /** The length of a cursor, from the number of digits alone. */
  function CursorSize(codec: Codec, offset: nat): nat
    requires codec.Valid()
  {
    var baseSize := |Payload(codec, 0)| - 1;
    4 * ((baseSize + |J.Digits(offset)| + 32 + 2) / 3)
  }

  function Decode(codec: Codec, cursor: string): Option<nat>
    requires codec.Valid()
  {
    if !(1 <= |cursor| <= MAX_CURSOR_LENGTH) then None
    else
      match Decode64(cursor)
      case None => None
      case Some(raw) =>
        match Opened(codec, raw)
        case Some(offset) => if offset < OFFSETS then Some(offset) else None
        case None => None
  }

  /** The length is known before the cursor is made. */
  lemma SizeIsExact(codec: Codec, offset: nat)
    requires codec.Valid()
    ensures |Encode(codec, offset)| == CursorSize(codec, offset)
  {
    PayloadParts(codec, offset);
    PayloadParts(codec, 0);
    RawDigitsAre(offset);
    hide Payload, RawDigits, J.Digits, Encode64;
    assert |RawDigits(0)| == 1 by {
      RawZero();
    }
  }

  lemma RawZero()
    ensures RawDigits(0) == [48]
  {
  }

  /** The payload and the signature of some bytes. */
  function Split(raw: seq<byte>): (r: (seq<byte>, seq<byte>))
    ensures r.0 + r.1 == raw
  {
    var split := if |raw| < 32 then 0 else |raw| - 32;
    (raw[..split], raw[split..])
  }

  lemma SplitOf(payload: seq<byte>, signature: seq<byte>)
    requires |signature| == 32
    ensures Split(payload + signature) == (payload, signature)
  {
    assert (payload + signature)[..|payload|] == payload && (payload + signature)[|payload|..] == signature;
  }

  /** What the bytes of a cursor stand for. */
  function Opened(codec: Codec, raw: seq<byte>): Option<nat>
    requires codec.Valid()
  {
    var (payload, signature) := Split(raw);
    if codec.sign(payload) != signature then None
    else
      match codec.read(payload)
      case Some(t) => if t.version == 1 && t.selector == codec.selector && 0 <= t.offset then Some(t.offset) else None
      case None => None
  }

  /** A payload the session signed that is read as this query's offset. */
  ghost predicate Carries(codec: Codec, raw: seq<byte>, payload: seq<byte>, offset: nat)
    requires codec.Valid()
  {
    raw == payload + codec.sign(payload) && codec.read(payload) == Some(Triple(1, codec.selector, offset))
  }

  lemma OpenedExactly(codec: Codec, raw: seq<byte>, offset: nat)
    requires codec.Valid()
    ensures Opened(codec, raw) == Some(offset) <==> exists payload :: Carries(codec, raw, payload, offset)
  {
    hide Split, ReadsBack;
    if Opened(codec, raw) == Some(offset) {
      assert Carries(codec, raw, Split(raw).0, offset);
    }
    forall payload | Carries(codec, raw, payload, offset) ensures Opened(codec, raw) == Some(offset) {
      SplitOf(payload, codec.sign(payload));
    }
  }

  /** A cursor is accepted for an offset exactly when it spells a payload followed by its signature,
      and the reader reads this query's selector and the offset from it. */
  lemma DecodeExactly(codec: Codec, cursor: string, offset: nat)
    requires codec.Valid()
    ensures Decode(codec, cursor) == Some(offset) <==>
            && 1 <= |cursor| <= MAX_CURSOR_LENGTH && offset < OFFSETS && Decode64(cursor).Some?
            && exists payload :: Carries(codec, Decode64(cursor).value, payload, offset)
  {
    hide Decode64, Opened, Carries;
    if Decode64(cursor).Some? {
      OpenedExactly(codec, Decode64(cursor).value, offset);
    }
  }

  /** What the session writes for an offset. */
  lemma SignedCarries(codec: Codec, offset: nat)
    requires codec.Valid()
    ensures Carries(codec, Signed(codec, offset), Payload(codec, offset), offset)
  {
    hide Spelled;
  }

  lemma {:induction false} DigitsAreFew(n: nat, limit: nat)
    requires n < Ten(limit)
    ensures |RawDigits(n)| <= if limit == 0 then 1 else limit
  {
    if n >= 10 {
      DigitsAreFew(n / 10, limit - 1);
    }
  }

  function Ten(k: nat): nat {
    if k == 0 then 1 else 10 * Ten(k - 1)
  }

  /** Following a continuation leads to its offset. */
  lemma DecodeInverts(codec: Codec, offset: nat)
    requires codec.Valid() && offset < OFFSETS
    ensures Decode(codec, Encode(codec, offset)) == Some(offset)
  {
    assert offset < Ten(19) by {
      TenNineteen();
    }
    DigitsAreFew(offset, 19);
    PayloadParts(codec, offset);
    Decode64Inverts(Signed(codec, offset));
    DecodeExactly(codec, Encode(codec, offset), offset);
    SignedCarries(codec, offset);
    hide Decode, Decode64, Payload, RawDigits, Carries, ReadsBack;
  }

  lemma TenNineteen()
    ensures Ten(19) == 10_000_000_000_000_000_000
  {
    assert Ten(4) == 10_000;
    assert Ten(8) == 100_000_000;
    assert Ten(12) == 1_000_000_000_000;
    assert Ten(16) == 10_000_000_000_000_000;
  }

  /** A continuation of one query is refused by any other query of the session. */
  lemma SelectorsDoNotMix(codec: Codec, other: Codec, offset: nat)
    requires codec.Valid() && other.Valid() && codec.sign == other.sign && codec.read == other.read
    requires codec.selector != other.selector
    ensures Decode(other, Encode(codec, offset)) == None
  {
    Decode64Inverts(Signed(codec, offset));
    SignedCarries(codec, offset);
    match Decode(other, Encode(codec, offset))
    case None =>
    case Some(n) =>
      DecodeExactly(other, Encode(codec, offset), n);
      hide Decode, Decode64, Payload, ReadsBack;
      var payload :| Carries(other, Signed(codec, offset), payload, n);
      SplitOf(payload, codec.sign(payload));
      SplitOf(Payload(codec, offset), codec.sign(Payload(codec, offset)));
      assert false;
  }
}
