/** Class data items: bounded ULEB128 reads and the member lists built from them, first with
    one set of identities per class, then with the bitset the C decoder keeps. */
module ClassData {
  import opened Bytes

  // ---------------------------------------------------------------------------------------
  // ULEB128
  // ---------------------------------------------------------------------------------------

  /** The value whose byte number `k` is at `offset`, with the offset after it. A fifth byte
      may hold four bits only. */
  function LebFrom(data: seq<byte>, offset: nat, k: nat): (r: Option<(nat, nat)>)
    requires k <= 4
    ensures r.Some? ==> offset < r.value.1 <= |data| && r.value.0 < LebLimit(k)
    decreases 4 - k
  {
    if offset >= |data| || (k == 4 && data[offset] > 15) then None
    else if data[offset] < 128 then Some((data[offset] as nat, offset + 1))
    else
      match LebFrom(data, offset + 1, k + 1)
      case None => None
      case Some((high, next)) => Some((data[offset] - 128 + 128 * high, next))
  }

  /** Values of byte number `k` and later stay below this. */
  function LebLimit(k: nat): (r: nat)
    requires k <= 4
  {
    [0x1_0000_0000, 0x200_0000, 0x4_0000, 0x800, 0x10][k]
  }

  function Leb(data: seq<byte>, offset: nat): (r: Option<(nat, nat)>)
    ensures r.Some? ==> offset < r.value.1 <= |data| && r.value.0 < 0x1_0000_0000
  {
    LebFrom(data, offset, 0)
  }

  /** `value | low << shift` for a value below `scale`, which is `1 << shift`: the bits do not
      meet, so the bitwise or is a sum. */
  function ShiftIn(value: nat, scale: nat, low: nat): nat {
    value + scale * low
  }

  /** The bits read so far below the bits still to come. */
  function Accumulated(value: nat, scale: nat, rest: Option<(nat, nat)>): Option<(nat, nat)> {
    match rest
    case None => None
    case Some((high, next)) => Some((ShiftIn(value, scale, high), next))
  }

  lemma AccumulatedByte(data: seq<byte>, offset: nat, k: nat, value: nat, scale: nat)
    requires k <= 4 && offset < |data| && !(k == 4 && data[offset] > 15) && value < scale
    ensures var b, whole := data[offset], Accumulated(value, scale, LebFrom(data, offset, k));
            if b < 128 then whole == Some((ShiftIn(value, scale, b), offset + 1))
            else k < 4 && ShiftIn(value, scale, b - 128) < scale * 128
                 && whole == Accumulated(ShiftIn(value, scale, b - 128), scale * 128, LebFrom(data, offset + 1, k + 1))
  {
    var b := data[offset];
    if b >= 128 {
      var low := b - 128;
      var rest := LebFrom(data, offset + 1, k + 1);
      if rest.Some? {
        Distribute(scale, low, rest.value.0);
      }
      Bounded(value, scale, low);
    }
  }

  lemma Distribute(scale: nat, low: nat, high: nat)
    ensures scale * (low + 128 * high) == scale * low + scale * 128 * high
  {
  }

  lemma Bounded(value: nat, scale: nat, low: nat)
    requires value < scale && low < 128
    ensures value + scale * low < scale * 128
  {
    assert scale * low <= scale * 127;
  }

  /** The loop of both readers: seven more bits a byte above the bits already read, at most
      five bytes. */
  method ReadLeb(data: seq<byte>, position: nat) returns (r: Option<(nat, nat)>)
    ensures r == Leb(data, position)
  {
    hide LebFrom;
    hide Accumulated;
    hide ShiftIn;
    var offset: nat, value: nat, scale: nat, k: nat := position, 0, 1, 0;
    assert Leb(data, position) == Accumulated(0, 1, LebFrom(data, position, 0)) by {
      AccumulatedNothing(LebFrom(data, position, 0));
    }
    while k < 5
      invariant k <= 4 && value < scale
      invariant Leb(data, position) == Accumulated(value, scale, LebFrom(data, offset, k))
    {
      if offset >= |data| || (k == 4 && data[offset] > 15) {
        Rejected(data, offset, k, value, scale);
        return None;
      }
      var b: nat := data[offset];
      AccumulatedByte(data, offset, k, value, scale);
      offset := offset + 1;
      if b < 128 {
        return Some((ShiftIn(value, scale, b), offset));
      }
      value, scale, k := ShiftIn(value, scale, b - 128), scale * 128, k + 1;
    }
  }

  lemma AccumulatedNothing(rest: Option<(nat, nat)>)
    ensures Accumulated(0, 1, rest) == rest
  {
  }

  lemma Rejected(data: seq<byte>, offset: nat, k: nat, value: nat, scale: nat)
    requires k <= 4 && (offset >= |data| || (k == 4 && data[offset] > 15))
    ensures Accumulated(value, scale, LebFrom(data, offset, k)) == None
  {
  }

  /** The shortest ULEB128 form of a value. */
  function EncodeLeb(v: nat): seq<byte> {
    if v < 128 then [v] else [v % 128 + 128] + EncodeLeb(v / 128)
  }

  /** Reading inverts writing for every 32-bit value, whatever follows. */
  lemma LebRoundTrip(v: nat, before: seq<byte>, after: seq<byte>)
    requires v < 0x1_0000_0000
    ensures Leb(before + EncodeLeb(v) + after, |before|) == Some((v, |before| + |EncodeLeb(v)|))
  {
    LebRoundTripFrom(v, 0, before, after);
  }

  lemma {:induction false} LebRoundTripFrom(v: nat, k: nat, before: seq<byte>, after: seq<byte>)
    requires k <= 4 && v < LebLimit(k)
    ensures LebFrom(before + EncodeLeb(v) + after, |before|, k) == Some((v, |before| + |EncodeLeb(v)|))
    decreases v
  {
    var data := before + EncodeLeb(v) + after;
    assert data[|before|] == EncodeLeb(v)[0];
    if v >= 128 {
      LebRoundTripFrom(v / 128, k + 1, before + [v % 128 + 128], after);
      assert data == before + [v % 128 + 128] + EncodeLeb(v / 128) + after;
    }
  }

  // ---------------------------------------------------------------------------------------
  // Member lists with a set of identities per class
  // ---------------------------------------------------------------------------------------

  /** One decoded member: groups 0 and 1 are fields, groups 2 and 3 methods. Fields have no
      code offset. */
  datatype Member = Member(group: nat, index: nat, flags: nat, code: nat)

  datatype Pools = Pools(fields: nat, methods: nat)
  {
    /** The pool a group's indices refer to. */
    function Of(group: nat): nat {
      OfKind(group >= 2)
    }

    function OfKind(isMethod: bool): nat {
      if isMethod then methods else fields
    }
  }

  /** What makes a member unique in its class: fields and methods are numbered apart. */
  function Key(group: nat, index: nat): (bool, nat) {
    (group >= 2, index)
  }

  /** An index delta and the flags: the new index, the flags and the offset after them. */
  function ReadIndex(data: seq<byte>, offset: nat, index: nat, pool: nat): (r: Option<(nat, nat, nat)>)
    ensures r.Some? ==> offset < r.value.2 <= |data| && r.value.0 < pool
  {
    match Leb(data, offset)
    case None => None
    case Some((diff, afterDiff)) =>
      match Leb(data, afterDiff)
      case None => None
      case Some((flags, next)) =>
        if index + diff >= pool then None else Some((index + diff, flags, next))
  }

  /** One member, with the code offset of a method, as the fallback reads it against the set
      of members seen in this class. */
  function ReadMember(data: seq<byte>, offset: nat, group: nat, index: nat, seen: set<(bool, nat)>, pools: Pools)
    : (r: Option<(Member, nat)>)
    ensures r.Some? ==> offset < r.value.1 <= |data| && r.value.0.index < pools.Of(group)
  {
    match ReadIndex(data, offset, index, pools.Of(group))
    case None => None
    case Some((index', flags, next)) =>
      if Key(group, index') in seen then None
      else if group < 2 then Some((Member(group, index', flags, 0), next))
      else
        match Leb(data, next)
        case None => None
        case Some((code, after)) => Some((Member(group, index', flags, code), after))
  }

  /** The members from one point of the item on. */
  function MembersFrom(data: seq<byte>, offset: nat, sizes: seq<nat>, group: nat, done: nat, index: nat,
                       seen: set<(bool, nat)>, pools: Pools): Option<seq<Member>>
    requires |sizes| == 4 && group <= 4 && (group < 4 ==> done <= sizes[group])
    decreases 4 - group, if group < 4 then sizes[group] - done else 0
  {
    if group == 4 then Some([])
    else if done == sizes[group] then MembersFrom(data, offset, sizes, group + 1, 0, 0, seen, pools)
    else
      match ReadMember(data, offset, group, index, seen, pools)
      case None => None
      case Some((member, next)) =>
        Joined([member],
               MembersFrom(data, next, sizes, group, done + 1, member.index, seen + {Key(group, member.index)}, pools))
  }

  function Joined(members: seq<Member>, rest: Option<seq<Member>>): Option<seq<Member>> {
    if rest.None? then None else Some(members + rest.value)
  }

  /** The first `n` counts of the header, with the offset after them. */
  function Counts(data: seq<byte>, offset: nat, n: nat): (r: Option<(seq<nat>, nat)>)
    ensures r.Some? ==> |r.value.0| == n
  {
    if n == 0 then Some(([], offset))
    else
      match Counts(data, offset, n - 1)
      case None => None
      case Some((sizes, next)) =>
        match Leb(data, next)
        case None => None
        case Some((size, after)) => Some((sizes + [size], after))
  }

  function Sum(sizes: seq<nat>): nat {
    if sizes == [] then 0 else Sum(sizes[..|sizes| - 1]) + sizes[|sizes| - 1]
  }

  /** All members of the class data item at `offset`. */
  function RawMembers(data: seq<byte>, offset: nat, pools: Pools): Option<seq<Member>> {
    match Counts(data, offset, 4)
    case None => None
    case Some((sizes, next)) =>
      if Sum(sizes) > pools.fields + pools.methods then None
      else MembersFrom(data, next, sizes, 0, 0, 0, {}, pools)
  }

  ghost predicate New(members: seq<Member>, group: nat, seen: set<(bool, nat)>, pools: Pools) {
    forall i :: 0 <= i < |members| ==>
      var m := members[i];
      group <= m.group < 4 && m.index < pools.Of(m.group) && Key(m.group, m.index) !in seen
  }

  ghost predicate Distinct(members: seq<Member>) {
    forall i, j :: 0 <= i < j < |members| ==>
      Key(members[i].group, members[i].index) != Key(members[j].group, members[j].index)
  }

  /** No member occurs twice in an accepted class, and every index lies in its pool. */
  lemma {:induction false} MembersAreDistinct(data: seq<byte>, offset: nat, sizes: seq<nat>, group: nat, done: nat,
                                              index: nat, seen: set<(bool, nat)>, pools: Pools)
    requires |sizes| == 4 && group <= 4 && (group < 4 ==> done <= sizes[group])
    ensures var r := MembersFrom(data, offset, sizes, group, done, index, seen, pools);
            r.Some? ==> New(r.value, group, seen, pools) && Distinct(r.value)
    decreases 4 - group, if group < 4 then sizes[group] - done else 0
  {
    hide ReadMember;
    if group == 4 {
    } else if done == sizes[group] {
      MembersAreDistinct(data, offset, sizes, group + 1, 0, 0, seen, pools);
    } else {
      MemberIsNew(data, offset, group, index, seen, pools);
      var read := ReadMember(data, offset, group, index, seen, pools);
      if read.Some? {
        var (member, next) := read.value;
        var after := seen + {Key(group, member.index)};
        MembersAreDistinct(data, next, sizes, group, done + 1, member.index, after, pools);
        var rest := MembersFrom(data, next, sizes, group, done + 1, member.index, after, pools);
        if rest.Some? {
          DistinctWith(member, rest.value, seen, pools);
        }
      }
    }
  }

  lemma DistinctWith(member: Member, rest: seq<Member>, seen: set<(bool, nat)>, pools: Pools)
    requires New([member], member.group, seen, pools) && Distinct(rest)
    requires New(rest, member.group, seen + {Key(member.group, member.index)}, pools)
    ensures New([member] + rest, member.group, seen, pools) && Distinct([member] + rest)
  {
    var all := [member] + rest;
    assert forall i :: 0 < i < |all| ==> all[i] == rest[i - 1];
  }

  lemma MemberIsNew(data: seq<byte>, offset: nat, group: nat, index: nat, seen: set<(bool, nat)>, pools: Pools)
    requires group < 4
    ensures var r := ReadMember(data, offset, group, index, seen, pools);
            r.Some? ==> r.value.0.group == group && New([r.value.0], group, seen, pools)
  {
  }

  // ---------------------------------------------------------------------------------------
  // The C decoder
  // ---------------------------------------------------------------------------------------

  /** The index step of the C code: its unsigned index must not wrap before the pool check. */
  method ReadIndexChecked(data: seq<byte>, position: nat, index: nat, pool: nat) returns (r: Option<(nat, nat, nat)>)
    requires index < 0x1_0000_0000 && pool <= 0x1_0000
    ensures r == ReadIndex(data, position, index, pool)
  {
    hide Leb;
    var diff := ReadLeb(data, position);
    if diff.None? || diff.value.0 > 0xFFFF_FFFF - index {
      return None;
    }
    var flags := ReadLeb(data, diff.value.1);
    if flags.None? || index + diff.value.0 >= pool {
      return None;
    }
    return Some((index + diff.value.0, flags.value.0, flags.value.1));
  }

  /** The header: four counts and the offset after them. */
  method ReadCounts(data: seq<byte>, position: nat) returns (r: Option<(seq<nat>, nat)>)
    ensures r == Counts(data, position, 4)
  {
    hide Leb;
    var sizes: seq<nat>, offset := [], position;
    var group := 0;
    while group < 4
      invariant group <= 4 && Counts(data, position, group) == Some((sizes, offset))
    {
      var size := ReadLeb(data, offset);
      if size.None? {
        CountsFail(data, position, group + 1);
        return None;
      }
      sizes, offset := sizes + [size.value.0], size.value.1;
      group := group + 1;
    }
    return Some((sizes, offset));
  }

  lemma {:induction false} CountsFail(data: seq<byte>, position: nat, n: nat)
    requires n <= 4 && Counts(data, position, n) == None
    ensures Counts(data, position, 4) == None
    decreases 4 - n
  {
    if n < 4 {
      CountsFail(data, position, n + 1);
    }
  }

  /** A point of the item: the members decoded so far followed by those from here on are the
      members of the whole item. */
  ghost predicate Reached(data: seq<byte>, first: nat, sizes: seq<nat>, pools: Pools, members: seq<Member>,
                          offset: nat, group: nat, done: nat, index: nat, seen: set<(bool, nat)>)
    requires |sizes| == 4
  {
    && group <= 4 && (group < 4 ==> done <= sizes[group])
    && MembersFrom(data, first, sizes, 0, 0, 0, {}, pools) ==
       Joined(members, MembersFrom(data, offset, sizes, group, done, index, seen, pools))
  }

  lemma ReachedFirst(data: seq<byte>, first: nat, sizes: seq<nat>, pools: Pools)
    requires |sizes| == 4
    ensures Reached(data, first, sizes, pools, [], first, 0, 0, 0, {})
  {
    var rest := MembersFrom(data, first, sizes, 0, 0, 0, {}, pools);
    assert rest.Some? ==> [] + rest.value == rest.value;
  }

  lemma ReachedGroup(data: seq<byte>, first: nat, sizes: seq<nat>, pools: Pools, members: seq<Member>,
                     offset: nat, group: nat, index: nat, seen: set<(bool, nat)>)
    requires |sizes| == 4 && group < 4
    requires Reached(data, first, sizes, pools, members, offset, group, sizes[group], index, seen)
    ensures Reached(data, first, sizes, pools, members, offset, group + 1, 0, 0, seen)
  {
  }

  lemma ReachedMember(data: seq<byte>, first: nat, sizes: seq<nat>, pools: Pools, members: seq<Member>,
                      offset: nat, group: nat, done: nat, index: nat, seen: set<(bool, nat)>)
    requires |sizes| == 4 && group < 4 && done < sizes[group]
    requires Reached(data, first, sizes, pools, members, offset, group, done, index, seen)
    ensures match ReadMember(data, offset, group, index, seen, pools)
            case None => MembersFrom(data, first, sizes, 0, 0, 0, {}, pools) == None
            case Some((member, next)) =>
              Reached(data, first, sizes, pools, members + [member], next, group, done + 1, member.index,
                      seen + {Key(group, member.index)})
  {
    hide ReadMember;
    var read := ReadMember(data, offset, group, index, seen, pools);
    if read.Some? {
      var (member, next) := read.value;
      var rest := MembersFrom(data, next, sizes, group, done + 1, member.index, seen + {Key(group, member.index)}, pools);
      assert rest.Some? ==> members + ([member] + rest.value) == members + [member] + rest.value;
    }
  }

  lemma ReachedEnd(data: seq<byte>, first: nat, sizes: seq<nat>, pools: Pools, members: seq<Member>,
                   offset: nat, seen: set<(bool, nat)>)
    requires |sizes| == 4 && Reached(data, first, sizes, pools, members, offset, 4, 0, 0, seen)
    ensures MembersFrom(data, first, sizes, 0, 0, 0, {}, pools) == Some(members)
  {
    assert members + [] == members;
  }

  function Fields(members: seq<Member>): seq<Member> {
    if members == [] then []
    else Fields(members[..|members| - 1]) + if members[|members| - 1].group < 2 then [members[|members| - 1]] else []
  }

  function Methods(members: seq<Member>): seq<Member> {
    if members == [] then []
    else Methods(members[..|members| - 1]) + if members[|members| - 1].group >= 2 then [members[|members| - 1]] else []
  }

  lemma Appended(members: seq<Member>, member: Member)
    ensures Fields(members + [member]) == Fields(members) + if member.group < 2 then [member] else []
    ensures Methods(members + [member]) == Methods(members) + if member.group >= 2 then [member] else []
  {
    assert (members + [member])[..|members|] == members;
  }

  // ----- The two bitsets of the single-class decoder -----

  function Flag(k: nat): bv8
    requires k < 8
  {
    if k == 0 then 1 else if k == 1 then 2 else if k == 2 then 4 else if k == 3 then 8
    else if k == 4 then 16 else if k == 5 then 32 else if k == 6 then 64 else 128
  }

  lemma SetFlag(b: bv8, k: nat, j: nat)
    requires k < 8 && j < 8
    ensures (b | Flag(k)) & Flag(j) != 0 <==> j == k || b & Flag(j) != 0
  {
  }

  /** Membership in the pair of 8192-byte bitsets laid out one after the other. */
  predicate Marked(bits: seq<bv8>, key: (bool, nat))
    requires |bits| == 0x4000 && key.1 < 0x1_0000
  {
    bits[Slot(key)] & Flag(key.1 % 8) != 0
  }

  function Slot(key: (bool, nat)): (slot: nat)
    requires key.1 < 0x1_0000
    ensures slot < 0x4000
  {
    (if key.0 then 0x2000 else 0) + key.1 / 8
  }

  ghost predicate Represents(bits: seq<bv8>, seen: set<(bool, nat)>) {
    && |bits| == 0x4000
    && forall key: (bool, nat) :: key.1 < 0x1_0000 ==> (key in seen <==> Marked(bits, key))
  }

  lemma MarkedAfter(bits: seq<bv8>, key: (bool, nat), other: (bool, nat))
    requires |bits| == 0x4000 && key.1 < 0x1_0000 && other.1 < 0x1_0000
    ensures Marked(bits[Slot(key) := bits[Slot(key)] | Flag(key.1 % 8)], other) <==> other == key || Marked(bits, other)
  {
    hide Flag;
    if Slot(key) == Slot(other) {
      SetFlag(bits[Slot(key)], key.1 % 8, other.1 % 8);
      assert key.0 == other.0 && key.1 / 8 == other.1 / 8;
    }
  }

  lemma RepresentsAfter(bits: seq<bv8>, seen: set<(bool, nat)>, key: (bool, nat))
    requires Represents(bits, seen) && key.1 < 0x1_0000
    ensures Represents(bits[Slot(key) := bits[Slot(key)] | Flag(key.1 % 8)], seen + {key})
  {
    hide Marked;
    var after := bits[Slot(key) := bits[Slot(key)] | Flag(key.1 % 8)];
    forall other: (bool, nat) | other.1 < 0x1_0000
      ensures other in seen + {key} <==> Marked(after, other)
    {
      MarkedAfter(bits, key, other);
    }
  }

  /** Decode one class with bitsets: exactly the member lists of the set-based decoder. */
  method Members(data: seq<byte>, position: nat, pools: Pools) returns (r: Option<(seq<Member>, seq<Member>)>)
    requires pools.fields <= 0x1_0000 && pools.methods <= 0x1_0000
    ensures r == match RawMembers(data, position, pools)
                 case None => None
                 case Some(members) => Some((Fields(members), Methods(members)))
  {
    hide MembersFrom;
    hide Reached;
    hide ReadIndex;
    hide Leb;
    hide Represents;
    hide Marked;
    hide Slot;
    hide Fields;
    hide Methods;
    var counts := ReadCounts(data, position);
    if counts.None? || Sum(counts.value.0) > pools.fields + pools.methods {
      return None;
    }
    var (sizes, first) := counts.value;
    var bits := new bv8[0x4000](_ => 0);
    var fields: seq<Member>, methods: seq<Member> := [], [];
    ghost var members: seq<Member>, seen: set<(bool, nat)> := [], {};
    ReachedFirst(data, first, sizes, pools);
    NothingMarked(bits[..]);
    NothingListed();
    var group, offset := 0, first;
    while group < 4
      invariant group <= 4 && Reached(data, first, sizes, pools, members, offset, group, 0, 0, seen)
      invariant Represents(bits[..], seen)
      invariant fields == Fields(members) && methods == Methods(members)
    {
      var index, done := 0, 0;
      while done < sizes[group]
        invariant done <= sizes[group] && index < 0x1_0000_0000
        invariant Reached(data, first, sizes, pools, members, offset, group, done, index, seen)
        invariant Represents(bits[..], seen)
        invariant fields == Fields(members) && methods == Methods(members)
      {
        ReachedMember(data, first, sizes, pools, members, offset, group, done, index, seen);
        var read := ReadIndexChecked(data, offset, index, pools.Of(group));
        if read.None? {
          return None;
        }
        var flags := read.value.1;
        index, offset := read.value.0, read.value.2;
        var key := Key(group, index);
        MarkedIffSeen(bits[..], seen, key);
        if Marked(bits[..], key) {
          return None;
        }
        RepresentsAfter(bits[..], seen, key);
        bits[Slot(key)] := bits[Slot(key)] | Flag(index % 8);
        var code := 0;
        if group >= 2 {
          var tail := ReadLeb(data, offset);
          if tail.None? {
            return None;
          }
          code, offset := tail.value.0, tail.value.1;
        }
        var member := Member(group, index, flags, code);
        Appended(members, member);
        if group >= 2 {
          methods := methods + [member];
        } else {
          fields := fields + [member];
        }
        members, seen := members + [member], seen + {key};
        done := done + 1;
      }
      ReachedGroup(data, first, sizes, pools, members, offset, group, index, seen);
      group := group + 1;
    }
    ReachedEnd(data, first, sizes, pools, members, offset, seen);
    return Some((fields, methods));
  }

  lemma NothingMarked(bits: seq<bv8>)
    requires |bits| == 0x4000 && forall i :: 0 <= i < |bits| ==> bits[i] == 0
    ensures Represents(bits, {})
  {
  }

  lemma NothingListed()
    ensures Fields([]) == [] && Methods([]) == []
  {
  }

  lemma MarkedIffSeen(bits: seq<bv8>, seen: set<(bool, nat)>, key: (bool, nat))
    requires Represents(bits, seen) && key.1 < 0x1_0000
    ensures |bits| == 0x4000 && (Marked(bits, key) <==> key in seen)
  {
  }
}
