/** The pool matcher: a linear substring search over raw ASCII strings, with everything else
    handed to the strict decoder and the plain filter. */
module PoolMatcher {
  import opened Bytes
  import opened ClassData
  import opened Mutf8

  // ---------------------------------------------------------------------------------------
  // Substring search
  // ---------------------------------------------------------------------------------------

  /** The first `k` characters of `q` are the last `k` of `t[..s]`. */
  predicate EndsWith(t: seq<nat>, s: nat, q: seq<nat>, k: nat) {
    k <= |q| && k <= s <= |t| && q[..k] == t[s - k..s]
  }

  /** `k` is the length of the longest proper border of `q[..i]`. */
  ghost predicate LongestBorder(q: seq<nat>, i: nat, k: nat) {
    && 1 <= i <= |q| && k < i && EndsWith(q, i, q, k)
    && NoLonger(q, i, q, k, i - 1)
  }

  /** No match of more than `j` and at most `limit` characters ends at `s`. */
  ghost predicate NoLonger(t: seq<nat>, s: nat, q: seq<nat>, j: nat, limit: nat) {
    forall l :: j < l <= limit ==> !EndsWith(t, s, q, l)
  }

  predicate Occurs(q: seq<nat>, t: seq<nat>) {
    exists s: nat :: s <= |t| && EndsWith(t, s, q, |q|)
  }

  /** One more character extends a match exactly when it continues the pattern. */
  lemma Extends(t: seq<nat>, s: nat, q: seq<nat>, k: nat)
    requires k < |q| && s < |t|
    ensures EndsWith(t, s + 1, q, k + 1) <==> EndsWith(t, s, q, k) && q[k] == t[s]
  {
    if k <= s {
      assert q[..k + 1] == q[..k] + [q[k]];
      assert t[s - k..s + 1] == t[s - k..s] + [t[s]];
      if EndsWith(t, s + 1, q, k + 1) {
        assert q[..k] == q[..k + 1][..k] == t[s - k..s + 1][..k] == t[s - k..s];
        assert q[k] == q[..k + 1][k] == t[s - k..s + 1][k] == t[s];
      }
    }
  }

  /** A shorter match inside a longer one is a border of the pattern, and the other way round. */
  lemma Nested(t: seq<nat>, s: nat, q: seq<nat>, j: nat, k: nat)
    requires k < j && EndsWith(t, s, q, j)
    ensures EndsWith(t, s, q, k) <==> EndsWith(q, j, q, k)
  {
    assert q[..j][j - k..] == q[j - k..j];
    assert t[s - j..s][j - k..] == t[s - k..s];
  }

  /** Every match at `s + 1` extends a match no longer than `j` at `s`. */
  ghost predicate Bounded(t: seq<nat>, s: nat, q: seq<nat>, j: nat, limit: nat) {
    forall k :: j < k < limit && k < |q| && s < |t| && q[k] == t[s] ==> !EndsWith(t, s, q, k)
  }

  lemma NothingMatches(t: seq<nat>, s: nat, q: seq<nat>)
    requires s <= |t|
    ensures EndsWith(t, s, q, 0)
  {
  }

  /** Falling back along the border table loses no match that could be extended. */
  lemma FallBack(t: seq<nat>, s: nat, q: seq<nat>, j: nat, next: nat, limit: nat)
    requires 0 < j < |q| && s < |t| && q[j] != t[s]
    requires EndsWith(t, s, q, j) && LongestBorder(q, j, next) && Bounded(t, s, q, j, limit)
    ensures EndsWith(t, s, q, next) && Bounded(t, s, q, next, limit)
  {
    Nested(t, s, q, j, next);
    forall k | next < k < limit && k < |q| && q[k] == t[s]
      ensures !EndsWith(t, s, q, k)
    {
      if k < j {
        Nested(t, s, q, j, k);
      }
    }
  }

  /** The longest match after one more character. */
  lemma Advance(t: seq<nat>, s: nat, q: seq<nat>, j: nat, limit: nat)
    requires j < |q| && j < limit && s < |t| && EndsWith(t, s, q, j) && Bounded(t, s, q, j, limit)
    requires j > 0 ==> q[j] == t[s]
    ensures var next := if q[j] == t[s] then j + 1 else 0;
            && EndsWith(t, s + 1, q, next)
            && NoLonger(t, s + 1, q, next, limit)
  {
    Extends(t, s, q, j);
    var next, after := if q[j] == t[s] then j + 1 else 0, s + 1;
    forall l | next < l <= limit
      ensures !EndsWith(t, after, q, l)
    {
      if l <= |q| {
        Extends(t, s, q, l - 1);
      }
    }
  }

  predicate IsUpper(c: nat) {
    0x41 <= c <= 0x5A
  }

  /** ASCII case folding of one character. */
  function Fold(sensitive: bool, c: nat): nat {
    if !sensitive && IsUpper(c) then c + 0x20 else c
  }

  function FoldAll(sensitive: bool, xs: seq<nat>): (r: seq<nat>)
    ensures |r| == |xs| && forall i :: 0 <= i < |r| ==> r[i] == Fold(sensitive, xs[i])
  {
    if xs == [] then [] else [Fold(sensitive, xs[0])] + FoldAll(sensitive, xs[1..])
  }

  /** The border table of the folded query. */
  method BorderTable(query: seq<nat>, sensitive: bool) returns (prefix: array<nat>)
    requires query != []
    ensures fresh(prefix) && prefix.Length == |query|
    ensures IsTable(FoldAll(sensitive, query), prefix[..], |query|)
  {
    hide IsTable;
    hide EndsWith;
    hide Bounded;
    hide LongestBorder;
    hide NoLonger;
    hide Fold;
    ghost var q := FoldAll(sensitive, query);
    prefix := new nat[|query|](_ => 0);
    var i: nat, j: nat := 1, 0;
    FirstBorder(q, prefix[..]);
    while i < |query|
      invariant 1 <= i <= |query| && j < i && j == prefix[i - 1]
      invariant IsTable(q, prefix[..], i)
    {
      TableAt(q, prefix[..], i, i);
      StartBorder(q, i, j);
      while j > 0 && Fold(sensitive, query[i]) != Fold(sensitive, query[j])
        invariant j < i && EndsWith(q, i, q, j) && Bounded(q, i, q, j, i) && IsTable(q, prefix[..], i)
        decreases j
      {
        var next := prefix[j - 1];
        TableAt(q, prefix[..], i, j);
        BorderShorter(q, j, next);
        FallBack(q, i, q, j, next, i);
        j := next;
      }
      Advance(q, i, q, j, i);
      NextBorder(q, i, j);
      if Fold(sensitive, query[i]) == Fold(sensitive, query[j]) {
        j := j + 1;
      }
      TableStep(q, prefix[..], i, j);
      prefix[i] := j;
      i := i + 1;
    }
  }

  /** The first `n` entries of the border table are right. */
  ghost predicate IsTable(q: seq<nat>, prefix: seq<nat>, n: nat) {
    n <= |prefix| == |q| && forall k :: 0 <= k < n ==> LongestBorder(q, k + 1, prefix[k])
  }

  lemma FirstBorder(q: seq<nat>, prefix: seq<nat>)
    requires q != [] && |prefix| == |q| && prefix[0] == 0
    ensures IsTable(q, prefix, 1)
  {
  }

  lemma TableAt(q: seq<nat>, prefix: seq<nat>, n: nat, j: nat)
    requires IsTable(q, prefix, n) && 0 < j <= n
    ensures j <= |prefix| && LongestBorder(q, j, prefix[j - 1])
  {
    assert LongestBorder(q, j - 1 + 1, prefix[j - 1]);
  }

  lemma TableStep(q: seq<nat>, prefix: seq<nat>, i: nat, j: nat)
    requires IsTable(q, prefix, i) && i < |q| && LongestBorder(q, i + 1, j)
    ensures IsTable(q, prefix[i := j], i + 1)
  {
    hide LongestBorder;
  }

  lemma StartBorder(q: seq<nat>, i: nat, j: nat)
    requires 1 <= i < |q| && LongestBorder(q, i, j)
    ensures j < i && EndsWith(q, i, q, j) && Bounded(q, i, q, j, i)
  {
  }

  lemma BorderShorter(q: seq<nat>, j: nat, next: nat)
    requires j > 0 && LongestBorder(q, j, next)
    ensures next < j
  {
  }

  lemma NextBorder(q: seq<nat>, i: nat, j: nat)
    requires 1 <= i < |q| && j < i
    requires var next := if q[j] == q[i] then j + 1 else 0;
             && EndsWith(q, i + 1, q, next)
             && NoLonger(q, i + 1, q, next, i)
    ensures LongestBorder(q, i + 1, if q[j] == q[i] then j + 1 else 0)
  {
  }

  /** The search loop over one string: true exactly when the folded query occurs in it. */
  method Search(query: seq<nat>, prefix: array<nat>, text: seq<nat>, sensitive: bool) returns (found: bool)
    requires query != [] && prefix.Length == |query|
    requires IsTable(FoldAll(sensitive, query), prefix[..], |query|)
    ensures found == Occurs(FoldAll(sensitive, query), FoldAll(sensitive, text))
  {
    hide IsTable;
    hide EndsWith;
    hide Bounded;
    hide LongestBorder;
    hide NoLonger;
    hide Fold;
    ghost var q, t := FoldAll(sensitive, query), FoldAll(sensitive, text);
    var j: nat, start: nat := 0, 0;
    NothingMatches(t, 0, q);
    TooShort(t, 0, q);
    NotHere(t, 0, q, 0);
    while start < |text|
      invariant start <= |text| && j < |query| && EndsWith(t, start, q, j)
      invariant NoLonger(t, start, q, j, |q|)
      invariant forall s :: 0 <= s <= start ==> !EndsWith(t, s, q, |q|)
    {
      AllBounded(t, start, q, j);
      while j > 0 && Fold(sensitive, text[start]) != Fold(sensitive, query[j])
        invariant j < |query| && EndsWith(t, start, q, j) && Bounded(t, start, q, j, |q|)
        decreases j
      {
        var next := prefix[j - 1];
        TableAt(q, prefix[..], |q|, j);
        BorderShorter(q, j, next);
        FallBack(t, start, q, j, next, |q|);
        j := next;
      }
      Advance(t, start, q, j, |q|);
      if Fold(sensitive, text[start]) == Fold(sensitive, query[j]) {
        j := j + 1;
      }
      if j == |query| {
        return true;
      }
      NotHere(t, start + 1, q, j);
      start := start + 1;
    }
    EndsInside(t, q);
    return false;
  }

  lemma TooShort(t: seq<nat>, s: nat, q: seq<nat>)
    ensures NoLonger(t, s, q, s, |q|)
  {
  }

  lemma AllBounded(t: seq<nat>, s: nat, q: seq<nat>, j: nat)
    requires NoLonger(t, s, q, j, |q|)
    ensures Bounded(t, s, q, j, |q|)
  {
  }

  lemma NotHere(t: seq<nat>, s: nat, q: seq<nat>, j: nat)
    requires j < |q| && NoLonger(t, s, q, j, |q|)
    ensures !EndsWith(t, s, q, |q|)
  {
  }

  lemma EndsInside(t: seq<nat>, q: seq<nat>)
    ensures forall s: nat :: EndsWith(t, s, q, |q|) ==> s <= |t|
  {
  }

  // ---------------------------------------------------------------------------------------
  // Matching a pool
  // ---------------------------------------------------------------------------------------

  /** The string pool, and either the type pool over it or the string pool itself. */
  datatype Directory = Directory(data: seq<byte>, direct: bool, typeOffset: nat, types: nat, stringOffset: nat, strings: nat)
  {
    /** The tables lie inside the file. */
    predicate Fits() {
      && stringOffset + 4 * strings <= |data|
      && if direct then types == strings else typeOffset + 4 * types <= |data|
    }

    /** Where the string item of an entry starts, if its string index is in the pool. */
    function ItemOf(i: nat): Option<nat>
      requires Fits() && i < types
    {
      var index := if direct then i else U32(data, typeOffset + 4 * i);
      if index >= strings then None else Some(U32(data, stringOffset + 4 * index))
    }

    /** The decoded text of an entry. */
    function TextOf(i: nat): Option<Text>
      requires Fits() && i < types
    {
      match ItemOf(i)
      case None => None
      case Some(offset) => StringAt(data, offset)
    }
  }

  predicate Ascii(text: Text) {
    forall i :: 0 <= i < |text| ==> text[i] < 0x80
  }

  /** A filter: `lower` is the library's case folding, which on ASCII text is the ASCII one. */
  datatype Filter = Filter(query: Text, fuzzy: bool, sensitive: bool, lower: Text -> Text)
  {
    ghost predicate Valid() {
      Ascii(query) && forall t :: Ascii(t) ==> lower(t) == FoldAll(false, t)
    }

    function Folded(t: Text): Text {
      if sensitive then t else lower(t)
    }

    /** The plain filter on a decoded text. */
    predicate Accepts(t: Text) {
      if fuzzy then Occurs(Folded(query), Folded(t)) else Folded(query) == Folded(t)
    }
  }

  /** The entry decodes and its text passes the filter. */
  predicate Passes(d: Directory, f: Filter, i: nat)
    requires d.Fits()
  {
    i < d.types && d.TextOf(i).Some? && f.Accepts(d.TextOf(i).value)
  }

  predicate Decodes(d: Directory, i: nat)
    requires d.Fits()
  {
    i < d.types && d.TextOf(i).Some?
  }

  /** The naive result: decode every entry and filter. */
  ghost function NaiveMatches(d: Directory, f: Filter): Option<set<nat>>
    requires d.Fits()
  {
    if exists i :: 0 <= i < d.types && !Decodes(d, i) then None
    else Some(set i | 0 <= i < d.types && Passes(d, f, i))
  }

  datatype Verdict = Invalid | Match | NoMatch | Deferred

  /** What the matcher may say of one entry. */
  ghost predicate Sound(d: Directory, f: Filter, i: nat, verdict: Verdict)
    requires d.Fits() && i < d.types
  {
    match verdict
    case Invalid => !Decodes(d, i)
    case Match => Passes(d, f, i)
    case NoMatch => Decodes(d, i) && !Passes(d, f, i)
    case Deferred => true
  }

  lemma {:induction false} FoldSensitive(t: Text)
    ensures FoldAll(true, t) == t
  {
    if t != [] {
      FoldSensitive(t[1..]);
    }
  }

  lemma FoldedIsFoldAll(f: Filter, t: Text)
    requires f.Valid() && Ascii(t)
    ensures f.Folded(t) == FoldAll(f.sensitive, t)
  {
    FoldSensitive(t);
  }

  /** An ASCII string is its own text. */
  lemma {:induction false} AsciiParses(raw: seq<byte>)
    requires NoNul(raw) && forall i :: 0 <= i < |raw| ==> raw[i] < 0x80
    ensures Parse(raw) == Some(raw) && Combine(raw) == raw
  {
    if raw != [] {
      AsciiParses(raw[1..]);
      assert raw == [raw[0]] + raw[1..];
      assert ParseUnit(raw) == Some((raw[0], 1));
    }
  }

  /** The text of an item whose bytes are ASCII up to the terminator. */
  lemma AsciiText(data: seq<byte>, offset: nat, length: nat, start: nat, end: nat)
    requires Leb(data, offset) == Some((length, start)) && start <= end < |data| && data[end] == 0
    requires forall i :: start <= i < end ==> 0 < data[i] < 0x80
    ensures StringAt(data, offset) == if end - start == length then Some(data[start..end]) else None
  {
    hide Decode;
    hide Leb;
    var raw := data[start..end];
    FindHere(data, start, end);
    DecodeIsExact(raw, length);
    AsciiParses(raw);
  }

  lemma {:induction false} FindHere(data: seq<byte>, start: nat, end: nat)
    requires start <= end < |data| && data[end] == 0 && forall i :: start <= i < end ==> data[i] != 0
    ensures FindNul(data, start) == Some(end)
    decreases end - start
  {
    if start < end {
      FindHere(data, start + 1, end);
    }
  }

  lemma {:induction false} FindNothing(data: seq<byte>, start: nat)
    requires start <= |data| && forall i :: start <= i < |data| ==> data[i] != 0
    ensures FindNul(data, start) == None
    decreases |data| - start
  {
    if start < |data| {
      FindNothing(data, start + 1);
    }
  }

  /** The comparison of an exact query, character by character. */
  method SameFolded(query: Text, text: Text, sensitive: bool) returns (same: bool)
    requires |query| == |text|
    ensures same == (FoldAll(sensitive, query) == FoldAll(sensitive, text))
  {
    hide Fold;
    ghost var q, t := FoldAll(sensitive, query), FoldAll(sensitive, text);
    var j := 0;
    while j < |query| && Fold(sensitive, text[j]) == Fold(sensitive, query[j])
      invariant j <= |query| && forall k :: 0 <= k < j ==> q[k] == t[k]
    {
      j := j + 1;
    }
    same := j == |query|;
    if !same {
      assert q[j] != t[j];
    }
  }

  lemma Lengths(q: Text, t: Text)
    ensures |q| > |t| ==> !Occurs(q, t)
    ensures q == [] ==> Occurs(q, t)
  {
    if q == [] {
      assert EndsWith(t, 0, q, |q|);
    }
  }

  /** The border table of a fuzzy query; other queries need none. */
  ghost predicate TableFor(f: Filter, prefix: array<nat>)
    reads prefix
  {
    f.fuzzy && f.query != [] ==>
      prefix.Length == |f.query| && IsTable(FoldAll(f.sensitive, f.query), prefix[..], |f.query|)
  }

  /** The C test of one raw ASCII string, with the border table of a fuzzy query. */
  method Matches(f: Filter, prefix: array<nat>, text: Text) returns (found: bool)
    requires f.Valid() && Ascii(text)
    requires TableFor(f, prefix)
    ensures found == f.Accepts(text)
  {
    hide IsTable;
    hide Occurs;
    FoldedIsFoldAll(f, text);
    FoldedIsFoldAll(f, f.query);
    hide f.Folded;
    hide f.Valid;
    Lengths(FoldAll(f.sensitive, f.query), FoldAll(f.sensitive, text));
    if |f.query| > |text| || (!f.fuzzy && |f.query| != |text|) {
      return false;
    }
    if f.query == [] {
      return true;
    }
    if f.fuzzy {
      found := Search(f.query, prefix, text, f.sensitive);
    } else {
      found := SameFolded(f.query, text, f.sensitive);
    }
  }

  /** One entry of the C loop. */
  method Examine(d: Directory, f: Filter, prefix: array<nat>, i: nat) returns (verdict: Verdict)
    requires d.Fits() && f.Valid() && i < d.types
    requires TableFor(f, prefix)
    ensures Sound(d, f, i, verdict)
  {
    hide IsTable;
    hide Decode;
    hide Leb;
    hide FindNul;
    hide f.Valid;
    var item := d.ItemOf(i);
    if item.None? {
      return Invalid;
    }
    var header := ReadLeb(d.data, item.value);
    if header.None? {
      return Invalid;
    }
    var (units, position) := header.value;
    var end := position;
    while end < |d.data| && d.data[end] != 0 && d.data[end] < 0x80
      invariant position <= end <= |d.data|
      invariant forall k :: position <= k < end ==> 0 < d.data[k] < 0x80
    {
      end := end + 1;
    }
    if end == |d.data| {
      FindNothing(d.data, position);
      return Invalid;
    }
    if d.data[end] != 0 {
      return Deferred;
    }
    AsciiText(d.data, item.value, units, position, end);
    if end - position != units {
      return Invalid;
    }
    var found := Matches(f, prefix, d.data[position..end]);
    return if found then Match else NoMatch;
  }

  /** The C pass over the pool: the entries it can decide, and those left to the decoder. */
  method MatchPool(d: Directory, f: Filter) returns (r: Option<(seq<nat>, seq<nat>)>)
    requires d.Fits() && f.Valid()
    ensures r.None? ==> exists i :: 0 <= i < d.types && !Decodes(d, i)
    ensures r.Some? ==> forall i :: 0 <= i < d.types ==> Sound(d, f, i, VerdictOf(r.value.0, r.value.1, i))
    ensures r.Some? ==> forall i :: i in r.value.0 || i in r.value.1 ==> i < d.types
  {
    hide Passes;
    hide Decodes;
    hide f.Valid;
    hide TableFor;
    var prefix := new nat[0];
    if f.fuzzy && f.query != [] {
      prefix := BorderTable(f.query, f.sensitive);
    }
    assert TableFor(f, prefix) by {
      TableReady(f, prefix);
    }
    var matches: seq<nat>, deferred: seq<nat> := [], [];
    var i := 0;
    while i < d.types
      invariant i <= d.types && TableFor(f, prefix)
      invariant forall k :: k in matches || k in deferred ==> k < i
      invariant forall k :: 0 <= k < i ==> Sound(d, f, k, VerdictOf(matches, deferred, k))
      decreases d.types - i
    {
      var verdict := Examine(d, f, prefix, i);
      ghost var matched, put := matches, deferred;
      if verdict == Invalid {
        return None;
      } else if verdict == Match {
        matches := matches + [i];
      } else if verdict == Deferred {
        deferred := deferred + [i];
      }
      forall k | 0 <= k <= i
        ensures Sound(d, f, k, VerdictOf(matches, deferred, k))
      {
        assert k < i ==> VerdictOf(matches, deferred, k) == VerdictOf(matched, put, k);
        assert k == i ==> VerdictOf(matches, deferred, k) == verdict;
      }
      i := i + 1;
    }
    return Some((matches, deferred));
  }

  function VerdictOf(matches: seq<nat>, deferred: seq<nat>, i: nat): Verdict {
    if i in deferred then Deferred else if i in matches then Match else NoMatch
  }

  lemma TableReady(f: Filter, prefix: array<nat>)
    requires f.fuzzy && f.query != [] ==>
               prefix.Length == |f.query| && IsTable(FoldAll(f.sensitive, f.query), prefix[..], |f.query|)
    ensures TableFor(f, prefix)
  {
  }

  /** The wrapper: the decided matches, and the deferred entries decoded and filtered. It is
      the naive filter over the whole pool, rejections included. */
  method MatchingTypes(d: Directory, f: Filter) returns (r: Option<set<nat>>)
    requires d.Fits() && f.Valid()
    ensures r == NaiveMatches(d, f)
  {
    hide d.TextOf;
    hide f.Valid;
    hide f.Accepts;
    var pass := MatchPool(d, f);
    if pass.None? {
      return None;
    }
    var (found, deferred) := pass.value;
    var matches := set i | i in found && i !in deferred;
    var k := 0;
    while k < |deferred|
      invariant k <= |deferred|
      invariant forall j :: 0 <= j < k ==> Decodes(d, deferred[j])
      invariant forall i :: i in matches <==> (i in found && i !in deferred) || (i in deferred[..k] && Passes(d, f, i))
    {
      var i := deferred[k];
      assert i in deferred;
      var text := d.TextOf(i);
      if text.None? {
        assert !Decodes(d, i);
        return None;
      }
      if f.Accepts(text.value) {
        matches := matches + {i};
      }
      assert deferred[..k + 1] == deferred[..k] + [i];
      k := k + 1;
    }
    assert deferred[..k] == deferred;
    AllDecided(d, f, found, deferred);
    assert matches == NaiveMatches(d, f).value;
    return Some(matches);
  }

  /** Entries decided by the pass and entries decided by the decoder make up the naive result. */
  lemma AllDecided(d: Directory, f: Filter, found: seq<nat>, deferred: seq<nat>)
    requires d.Fits() && f.Valid()
    requires forall i :: i in found || i in deferred ==> i < d.types
    requires forall i :: 0 <= i < d.types ==> Sound(d, f, i, VerdictOf(found, deferred, i))
    requires forall j :: 0 <= j < |deferred| ==> Decodes(d, deferred[j])
    ensures NaiveMatches(d, f).Some?
    ensures forall i :: i in NaiveMatches(d, f).value <==>
              (i in found && i !in deferred) || (i in deferred && Passes(d, f, i))
  {
    hide f.Accepts;
    forall i: nat
      ensures i < d.types ==> Decodes(d, i)
      ensures Passes(d, f, i) <==> (i in found && i !in deferred) || (i in deferred && Passes(d, f, i))
    {
      if i < d.types {
        assert Sound(d, f, i, VerdictOf(found, deferred, i));
      }
      if i in deferred {
        var j :| 0 <= j < |deferred| && deferred[j] == i;
      }
    }
  }
}
