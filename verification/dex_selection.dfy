/** The selection pass: walk every method of every class, count, and keep the methods that a
    later scan must revisit. One stamp table stands for a fresh set of members per class. */
module DexSelection {
  import opened Bytes
  import opened DexCursor
  import opened ClassData

  datatype Access = All | Reads | Writes

  /** The arguments of a selection. A caller mask turns selection by dynamic sites off. */
  datatype Selector = Selector(q: Query, access: Access, callers: Option<seq<byte>>, methodOffset: nat,
                               strings: nat, protos: nat, pools: Pools)
  {
    /** The C argument checks of `parse_class_selection`. */
    predicate Valid(data: seq<byte>) {
      && q.incoming && q.Valid() && q.kind != TypePool
      && pools.fields <= 0x1_0000 && pools.methods <= 0x1_0000
      && methodOffset + 8 * pools.methods <= |data|
      && q.pool == (match q.kind case StringPool => strings case FieldPool => pools.fields case _ => pools.methods)
      && (callers.Some? ==> |callers.value| == 0x1_0000 && q.kind == MethodPool)
    }
  }

  predicate IsRead(op: int) {
    0x52 <= op <= 0x58 || 0x60 <= op <= 0x66
  }

  /** An instruction for which the C pass keeps its method. A polymorphic invocation is special
      for being dynamic, so in the method pool it counts whatever its operand. */
  predicate Keeps(data: seq<byte>, s: Selector, position: nat)
    requires s.q.Valid() && Fits(data, position) && OperandInPool(data, s.q, position)
  {
    var op := data[position];
    || (Dynamic(op) && s.callers.None?)
    || (Special(data, s.q, position) && ReferenceOpcode(op, s.q.kind)
        && (s.q.kind != FieldPool || s.access == All || s.access == if IsRead(op) then Reads else Writes))
  }

  predicate KeepsAny(data: seq<byte>, s: Selector, walk: seq<Instruction>)
    requires s.q.Valid() && Walked(data, walk) && OperandsInPool(data, s.q, walk)
  {
    exists i :: 0 <= i < |walk| && Keeps(data, s, walk[i].position)
  }

  function DynamicCount(walk: seq<Instruction>): nat {
    if walk == [] then 0 else (if Dynamic(walk[0].opcode) then 1 else 0) + DynamicCount(walk[1..])
  }

  datatype Counters = Counters(instructions: nat, dynamic: nat, without: nat)
  {
    function Plus(other: Counters): Counters {
      Counters(instructions + other.instructions, dynamic + other.dynamic, without + other.without)
    }
  }

  /** What walking one method found. */
  datatype Found = Found(wanted: bool, counters: Counters)

  /** The name and prototype indices of a method lie in their pools. */
  predicate MethodInPools(data: seq<byte>, s: Selector, index: nat) {
    && s.methodOffset <= |data| && index < (|data| - s.methodOffset) / 8
    && U32(data, s.methodOffset + index * 8 + 4) < s.strings
    && U16(data, s.methodOffset + index * 8 + 2) < s.protos
  }

  /** The meaning of `select_code`: reject, or count the whole walk and say whether any of its
      instructions is worth a second visit. */
  function SelectCode(data: seq<byte>, s: Selector, index: nat, code: nat): Option<Found>
    requires s.q.Valid()
  {
    if !MethodInPools(data, s, index) then None
    else if code == 0 then Some(Found(false, Counters(0, 0, 1)))
    else
      match CodeBounds(data, code)
      case None => None
      case Some((start, end)) =>
        match Instructions(data, start, start, end, s.q.version)
        case None => None
        case Some(walk) =>
          if !OperandsInPool(data, s.q, walk) then None
          else Some(Found(KeepsAny(data, s, walk), Counters(|walk|, DynamicCount(walk), 0)))
  }

  /** What one instruction adds. */
  function FoundAt(data: seq<byte>, s: Selector, position: nat): Found
    requires s.q.Valid() && Fits(data, position) && OperandInPool(data, s.q, position)
  {
    Found(Keeps(data, s, position), Counters(1, if Dynamic(data[position]) then 1 else 0, 0))
  }

  /** The same from `position` on, one C step at a time. */
  function FoundFrom(data: seq<byte>, s: Selector, position: nat, end: nat): Option<Found>
    requires s.q.Valid() && position <= end <= |data|
    decreases end - position
  {
    if position == end then Some(Found(false, Counters(0, 0, 0)))
    else
      match Decode(data, s.q, position, end)
      case None => None
      case Some(d) =>
        DecodeRefinesCursor(data, s.q, position, end);
        After(FoundAt(data, s, position), FoundFrom(data, s, position + d.bytes, end))
  }

  function After(found: Found, rest: Option<Found>): Option<Found> {
    match rest
    case None => None
    case Some(r) => Some(Found(found.wanted || r.wanted, found.counters.Plus(r.counters)))
  }

  lemma WalkSplits(data: seq<byte>, s: Selector, walk: seq<Instruction>)
    requires s.q.Valid() && walk != [] && Walked(data, walk)
    ensures Walked(data, walk[1..])
    ensures OperandsInPool(data, s.q, walk) <==>
            OperandInPool(data, s.q, walk[0].position) && OperandsInPool(data, s.q, walk[1..])
    ensures OperandsInPool(data, s.q, walk) ==>
              (KeepsAny(data, s, walk) <==> Keeps(data, s, walk[0].position) || KeepsAny(data, s, walk[1..]))
  {
    hide Keeps;
    hide OperandInPool;
    assert forall i :: 0 <= i < |walk[1..]| ==> walk[1..][i] == walk[i + 1];
    assert forall i :: 1 <= i < |walk| ==> walk[i] == walk[1..][i - 1];
  }

  lemma {:induction false} FoundFromIsWalk(data: seq<byte>, s: Selector, start: nat, position: nat, end: nat)
    requires s.q.Valid() && Region(data, start, position, end)
    ensures var walk := Instructions(data, start, position, end, s.q.version);
            FoundFrom(data, s, position, end) ==
            if walk.Some? && OperandsInPool(data, s.q, walk.value)
            then Some(Found(KeepsAny(data, s, walk.value), Counters(|walk.value|, DynamicCount(walk.value), 0)))
            else None
    decreases end - position
  {
    hide Decode;
    hide Units;
    hide Keeps;
    hide Special;
    hide OperandInPool;
    if position < end {
      hide OperandsInPool;
      hide KeepsAny;
      DecodeRefinesCursor(data, s.q, position, end);
      var units := Units(data, position, end, s.q.version);
      if units.Some? {
        var next := position + 2 * units.value;
        FoundFromIsWalk(data, s, start, next, end);
        var rest := Instructions(data, start, next, end, s.q.version);
        if rest.Some? {
          var walk := Instructions(data, start, position, end, s.q.version).value;
          assert walk[0].position == position && walk[1..] == rest.value;
          WalkSplits(data, s, walk);
        }
      }
    }
  }

  // ---------------------------------------------------------------------------------------
  // Selecting over classes
  // ---------------------------------------------------------------------------------------

  /** Everything a selection accumulates: the methods to revisit, the defined targets and the
      counters. */
  datatype Selection = Selection(selected: seq<Member>, definitions: seq<nat>, methods: nat, counters: Counters)

  predicate Defines(s: Selector, member: Member)
    requires s.q.Valid()
  {
    && s.q.kind != StringPool && s.q.kind != TypePool
    && (if s.q.kind == FieldPool then member.group < 2 else member.group >= 2)
    && member.index < 0x1_0000 && s.q.mask[member.index] != 0
  }

  predicate CalledBy(s: Selector, index: nat) {
    s.callers.Some? && index < |s.callers.value| && s.callers.value[index] != 0
  }

  /** One member more; None when its method is rejected. */
  function SelectMember(data: seq<byte>, s: Selector, so: Selection, member: Member): Option<Selection>
    requires s.q.Valid()
  {
    var definitions := so.definitions + if Defines(s, member) then [member.index] else [];
    if member.group < 2 then Some(so.(definitions := definitions))
    else
      match SelectCode(data, s, member.index, member.code)
      case None => None
      case Some(found) =>
        var selected := so.selected + if found.wanted || CalledBy(s, member.index) then [member] else [];
        Some(Selection(selected, definitions, so.methods + 1, so.counters.Plus(found.counters)))
  }

  function SelectMembers(data: seq<byte>, s: Selector, so: Selection, members: seq<Member>): Option<Selection>
    requires s.q.Valid()
  {
    if members == [] then Some(so)
    else
      match SelectMembers(data, s, so, members[..|members| - 1])
      case None => None
      case Some(before) => SelectMember(data, s, before, members[|members| - 1])
  }

  /** The members of the class definition at `cls`, by the set-based decoder. */
  function ClassMembers(data: seq<byte>, cls: nat, pools: Pools): Option<seq<Member>> {
    if cls % 4 != 0 || cls + 32 > |data| then None
    else
      var offset := U32(data, cls + 24);
      if offset == 0 then Some([]) else RawMembers(data, offset, pools)
  }

  function SelectClass(data: seq<byte>, s: Selector, so: Selection, cls: nat): Option<Selection>
    requires s.q.Valid()
  {
    match ClassMembers(data, cls, s.pools)
    case None => None
    case Some(members) => SelectMembers(data, s, so, members)
  }

  lemma SelectMembersAppend(data: seq<byte>, s: Selector, so: Selection, members: seq<Member>, member: Member)
    requires s.q.Valid()
    ensures SelectMembers(data, s, so, members + [member]) ==
            match SelectMembers(data, s, so, members)
            case None => None
            case Some(before) => SelectMember(data, s, before, member)
  {
    assert (members + [member])[..|members|] == members;
  }

  lemma {:induction false} SelectMembersFail(data: seq<byte>, s: Selector, so: Selection, members: seq<Member>,
                                             more: seq<Member>)
    requires s.q.Valid() && SelectMembers(data, s, so, members) == None
    ensures SelectMembers(data, s, so, members + more) == None
  {
    hide SelectMember;
    if more == [] {
      assert members + more == members;
    } else {
      SelectMembersFail(data, s, so, members, more[..|more| - 1]);
      assert (members + more)[..|members + more| - 1] == members + more[..|more| - 1];
    }
  }

  // ----- The stamp table -----

  /** The slot of a member in the table shared by all classes of a directory. */
  function StampSlot(pools: Pools, key: (bool, nat)): (slot: nat)
    requires key.1 < pools.OfKind(key.0)
    ensures slot < pools.fields + pools.methods
  {
    (if key.0 then pools.fields else 0) + key.1
  }

  /** The slots stamped with the current generation are exactly the members seen. */
  ghost predicate Stamped(stamps: seq<nat>, pools: Pools, generation: nat, seen: set<(bool, nat)>) {
    && |stamps| == pools.fields + pools.methods + 1
    && (forall i :: 0 <= i < |stamps| ==> stamps[i] <= generation)
    && forall key: (bool, nat) :: key.1 < pools.OfKind(key.0) ==>
         (key in seen <==> stamps[StampSlot(pools, key)] == generation)
  }

  lemma StampedAfter(stamps: seq<nat>, pools: Pools, generation: nat, seen: set<(bool, nat)>, key: (bool, nat))
    requires Stamped(stamps, pools, generation, seen) && key.1 < pools.OfKind(key.0)
    ensures Stamped(stamps[StampSlot(pools, key) := generation], pools, generation, seen + {key})
  {
    var after := stamps[StampSlot(pools, key) := generation];
    forall other: (bool, nat) | other.1 < pools.OfKind(other.0)
      ensures other in seen + {key} <==> after[StampSlot(pools, other)] == generation
    {
      assert StampSlot(pools, other) == StampSlot(pools, key) <==> other == key;
    }
  }

  /** A name as its UTF-16 code units. */
  type Name = seq<nat>

  /** The result over a whole directory: the owners with methods to revisit, and the totals. */
  datatype Chosen = Chosen(rows: seq<(Name, seq<Member>)>, definitions: seq<nat>, methods: nat, counters: Counters)

  /** Class after class, each with its own set of members. */
  function SelectDirectory(data: seq<byte>, s: Selector, directory: seq<(Name, nat)>): Option<Chosen>
    requires s.q.Valid()
  {
    if directory == [] then Some(Chosen([], [], 0, Counters(0, 0, 0)))
    else
      match SelectDirectory(data, s, directory[..|directory| - 1])
      case None => None
      case Some(before) =>
        var (owner, cls) := directory[|directory| - 1];
        match SelectClass(data, s, Selection([], before.definitions, before.methods, before.counters), cls)
        case None => None
        case Some(so) =>
          Some(Chosen(before.rows + if so.selected == [] then [] else [(owner, so.selected)],
                      so.definitions, so.methods, so.counters))
  }

  lemma {:induction false} SelectDirectoryFail(data: seq<byte>, s: Selector, directory: seq<(Name, nat)>, n: nat)
    requires s.q.Valid() && n <= |directory| && SelectDirectory(data, s, directory[..n]) == None
    ensures SelectDirectory(data, s, directory) == None
    decreases |directory| - n
  {
    hide SelectClass;
    if n == |directory| {
      assert directory[..n] == directory;
    } else {
      assert directory[..n + 1][..n] == directory[..n];
      SelectDirectoryFail(data, s, directory, n + 1);
    }
  }

  /** The state of a bulk selection. Its table is cleared once, not once per class. */
  class ClassSelection {
    const data: seq<byte>
    const s: Selector
    const stamps: array<nat>
    var generation: nat
    var selected: seq<Member>
    var definitions: seq<nat>
    var methods: nat
    var instructions: nat
    var dynamic: nat
    var without: nat

    ghost predicate Valid()
      reads this, stamps
    {
      && s.Valid(data)
      && generation < 0x1_0000_0000
      && stamps.Length == s.pools.fields + s.pools.methods + 1
      && forall i :: 0 <= i < stamps.Length ==> stamps[i] <= generation
    }

    function Counted(): Counters
      reads this
    {
      Counters(instructions, dynamic, without)
    }

    function State(): Selection
      reads this
    {
      Selection(selected, definitions, methods, Counted())
    }

    constructor (data: seq<byte>, s: Selector)
      requires s.Valid(data)
      ensures Valid() && fresh(stamps) && this.data == data && this.s == s
      ensures State() == Selection([], [], 0, Counters(0, 0, 0))
    {
      this.data, this.s := data, s;
      stamps := new nat[s.pools.fields + s.pools.methods + 1](_ => 0);
      generation, selected, definitions, methods := 0, [], [], 0;
      instructions, dynamic, without := 0, 0, 0;
    }

    /** Walk one method: -1 to reject, else whether to keep it. */
    method SelectMethod(index: nat, code: nat) returns (wanted: int)
      requires s.Valid(data)
      modifies `instructions, `dynamic, `without
      ensures match SelectCode(data, s, index, code)
              case None => wanted == -1
              case Some(found) =>
                wanted == (if found.wanted then 1 else 0) && Counted() == old(Counted()).Plus(found.counters)
    {
      hide FoundFrom;
      hide MethodInPools;
      hide SelectCode;
      hide CodeBounds;
      SelectCodeIsFound(data, s, index, code);
      if !MethodInPools(data, s, index) {
        return -1;
      }
      if code == 0 {
        without := without + 1;
        return 0;
      }
      var bounds := CodeBounds(data, code);
      if bounds.None? {
        return -1;
      }
      wanted := WalkCode(bounds.value.0, bounds.value.1);
    }

    /** The checked walk of the instructions of one method. */
    method WalkCode(start: nat, end: nat) returns (wanted: int)
      requires s.q.Valid() && start <= end <= |data|
      modifies `instructions, `dynamic
      ensures match FoundFrom(data, s, start, end)
              case None => wanted == -1
              case Some(found) =>
                wanted == (if found.wanted then 1 else 0) && Counted() == old(Counted()).Plus(found.counters)
    {
      hide Decode;
      hide FoundFrom;
      hide FoundAt;
      hide Fits;
      hide OperandInPool;
      hide Special;
      hide After;
      var position := start;
      ghost var whole := FoundFrom(data, s, start, end);
      ghost var so := Found(false, Counters(0, 0, 0));
      AfterNothing(whole);
      wanted := 0;
      while position < end
        invariant position <= end
        invariant whole == After(so, FoundFrom(data, s, position, end))
        invariant wanted == (if so.wanted then 1 else 0)
        invariant Counted() == old(Counted()).Plus(so.counters)
      {
        var d := Decode(data, s.q, position, end);
        if d.None? {
          FoundFails(data, s, position, end, so);
          return -1;
        }
        DecodeStays(data, s.q, position, end);
        FoundStep(data, s, position, end, so);
        var keep := Examine(d.value, position, end);
        AfterOne(so, FoundAt(data, s, position));
        so := After(so, Some(FoundAt(data, s, position))).value;
        wanted := if keep then 1 else wanted;
        position := position + d.value.bytes;
      }
      FoundEnd(data, s, end, so);
    }

    /** Count one decoded instruction and say whether it keeps its method. */
    method Examine(d: Decoded, position: nat, end: nat) returns (keep: bool)
      requires s.q.Valid() && position < end <= |data| && Decode(data, s.q, position, end) == Some(d)
      requires Fits(data, position) && OperandInPool(data, s.q, position)
      modifies `instructions, `dynamic
      ensures keep == FoundAt(data, s, position).wanted
      ensures Counted() == old(Counted()).Plus(FoundAt(data, s, position).counters)
    {
      hide Decode;
      hide Special;
      DecodeStays(data, s.q, position, end);
      instructions := instructions + 1;
      keep := false;
      if Dynamic(d.opcode) {
        dynamic := dynamic + 1;
        keep := s.callers.None?;
      }
      if d.special && ReferenceOpcode(d.opcode, s.q.kind) {
        if s.q.kind != FieldPool || s.access == All || s.access == (if IsRead(d.opcode) then Reads else Writes) {
          keep := true;
        }
      }
    }

    /** Start the next class: no slot carries the new generation, even when the 32-bit number
        wraps and the table has to be cleared. */
    method NextGeneration()
      requires Valid()
      modifies `generation, stamps
      ensures Valid() && Stamped(stamps[..], s.pools, generation, {})
      ensures generation == if old(generation) == 0xFFFF_FFFF then 1 else old(generation) + 1
    {
      generation := if generation == 0xFFFF_FFFF then 0 else generation + 1;
      if generation == 0 {
        forall i | 0 <= i < stamps.Length {
          stamps[i] := 0;
        }
        generation := 1;
      }
    }

    /** Select over one class. The stamp table accepts it exactly when the set-based decoder
        does, and the same members reach the selection. */
    method SelectClassRows(cls: nat) returns (ok: bool)
      requires Valid() && Stamped(stamps[..], s.pools, generation, {})
      modifies `selected, `definitions, `methods, `instructions, `dynamic, `without, stamps
      ensures Valid()
      ensures match SelectClass(data, s, old(State()), cls)
              case None => !ok
              case Some(so) => ok && State() == so
    {
      hide MembersFrom;
      hide Reached;
      hide ReadIndex;
      hide Leb;
      hide Stamped;
      hide StampSlot;
      hide SelectMembers;
      hide SelectMember;
      hide Sum;
      if cls % 4 != 0 || cls + 32 > |data| {
        return false;
      }
      var offset := U32(data, cls + 24);
      if offset == 0 {
        SelectNothing(data, s, State());
        return true;
      }
      var counts := ReadCounts(data, offset);
      if counts.None? || Sum(counts.value.0) > s.pools.fields + s.pools.methods {
        return false;
      }
      ok := SelectGroups(counts.value.0, counts.value.1);
    }

    /** The four groups of one class. */
    method SelectGroups(sizes: seq<nat>, first: nat) returns (ok: bool)
      requires Valid() && Stamped(stamps[..], s.pools, generation, {}) && |sizes| == 4
      modifies `selected, `definitions, `methods, `instructions, `dynamic, `without, stamps
      ensures Valid()
      ensures match MembersFrom(data, first, sizes, 0, 0, 0, {}, s.pools)
              case None => !ok
              case Some(members) =>
                match SelectMembers(data, s, old(State()), members)
                case None => !ok
                case Some(so) => ok && State() == so
    {
      hide MembersFrom;
      hide Reached;
      hide Stamped;
      hide SelectMembers;
      hide SelectMember;
      var offset, group := first, 0;
      ghost var members: seq<Member>, seen: set<(bool, nat)> := [], {};
      ghost var before := State();
      ReachedFirst(data, first, sizes, s.pools);
      SelectNothing(data, s, before);
      while group < 4
        invariant group <= 4 && Valid() && Stamped(stamps[..], s.pools, generation, seen)
        invariant Reached(data, first, sizes, s.pools, members, offset, group, 0, 0, seen)
        invariant SelectMembers(data, s, before, members) == Some(State())
      {
        var index, done := 0, 0;
        while done < sizes[group]
          invariant done <= sizes[group] && index < 0x1_0000_0000
          invariant Valid() && Stamped(stamps[..], s.pools, generation, seen)
          invariant Reached(data, first, sizes, s.pools, members, offset, group, done, index, seen)
          invariant SelectMembers(data, s, before, members) == Some(State())
        {
          ReachedMember(data, first, sizes, s.pools, members, offset, group, done, index, seen);
          var read := ReadStamped(offset, group, index, seen);
          if read.None? {
            return false;
          }
          var member := read.value.0;
          SelectMembersAppend(data, s, before, members, member);
          ghost var rest := MembersFrom(data, read.value.1, sizes, group, done + 1, member.index,
                                        seen + {Key(group, member.index)}, s.pools);
          members, seen := members + [member], seen + {Key(group, member.index)};
          var added := AddMember(member);
          if !added {
            if rest.Some? {
              SelectMembersFail(data, s, before, members, rest.value);
            }
            JoinedFrom(data, first, sizes, s.pools, members, read.value.1, group, done + 1, member.index, seen);
            return false;
          }
          index, offset := member.index, read.value.1;
          done := done + 1;
        }
        ReachedGroup(data, first, sizes, s.pools, members, offset, group, index, seen);
        group := group + 1;
      }
      ReachedEnd(data, first, sizes, s.pools, members, offset, seen);
      return true;
    }

    /** Read one member and stamp its slot, or reject it. */
    method ReadStamped(offset: nat, group: nat, index: nat, ghost seen: set<(bool, nat)>) returns (r: Option<(Member, nat)>)
      requires Valid() && Stamped(stamps[..], s.pools, generation, seen) && index < 0x1_0000_0000
      modifies stamps
      ensures Valid() && r == ReadMember(data, offset, group, index, seen, s.pools)
      ensures r.Some? ==> Stamped(stamps[..], s.pools, generation, seen + {Key(group, r.value.0.index)})
    {
      hide ReadIndex;
      hide Leb;
      hide Stamped;
      var read := ReadIndexChecked(data, offset, index, s.pools.Of(group));
      if read.None? {
        return None;
      }
      var key := Key(group, read.value.0);
      StampedIffSeen(stamps[..], s.pools, generation, seen, key);
      if stamps[StampSlot(s.pools, key)] == generation {
        return None;
      }
      StampedAfter(stamps[..], s.pools, generation, seen, key);
      stamps[StampSlot(s.pools, key)] := generation;
      assert stamps[..] == old(stamps[..])[StampSlot(s.pools, key) := generation];
      if group < 2 {
        return Some((Member(group, read.value.0, read.value.1, 0), read.value.2));
      }
      var code := ReadLeb(data, read.value.2);
      if code.None? {
        return None;
      }
      return Some((Member(group, read.value.0, read.value.1, code.value.0), code.value.1));
    }

    /** Select over one member. */
    method AddMember(member: Member) returns (ok: bool)
      requires Valid()
      modifies `selected, `definitions, `methods, `instructions, `dynamic, `without
      ensures match SelectMember(data, s, old(State()), member)
              case None => !ok
              case Some(so) => ok && State() == so
    {
      hide SelectCode;
      if Defines(s, member) {
        definitions := definitions + [member.index];
      }
      if member.group < 2 {
        return true;
      }
      methods := methods + 1;
      var wanted := SelectMethod(member.index, member.code);
      if wanted < 0 {
        return false;
      }
      if CalledBy(s, member.index) {
        wanted := 1;
      }
      if wanted != 0 {
        selected := selected + [member];
      }
      return true;
    }

    /** Select over a directory: class by class, with one table for all of them. */
    method SelectClasses(directory: seq<(Name, nat)>) returns (r: Option<seq<(Name, seq<Member>)>>)
      requires Valid() && State() == Selection([], [], 0, Counters(0, 0, 0))
      modifies this, stamps
      ensures match SelectDirectory(data, s, directory)
              case None => r == None
              case Some(chosen) =>
                r == Some(chosen.rows) && definitions == chosen.definitions && methods == chosen.methods
                && Counted() == chosen.counters
    {
      hide SelectClass;
      var rows: seq<(Name, seq<Member>)>, i := [], 0;
      while i < |directory|
        invariant i <= |directory| && Valid() && selected == []
        invariant SelectDirectory(data, s, directory[..i]) == Some(Chosen(rows, definitions, methods, Counted()))
      {
        assert directory[..i + 1][..i] == directory[..i];
        NextGeneration();
        var ok := SelectClassRows(directory[i].1);
        if !ok {
          SelectDirectoryFail(data, s, directory, i + 1);
          return None;
        }
        if selected != [] {
          rows := rows + [(directory[i].0, selected)];
          selected := [];
        } else {
          assert rows + [] == rows;
        }
        i := i + 1;
      }
      assert directory[..i] == directory;
      return Some(rows);
    }
  }

  lemma SelectNothing(data: seq<byte>, s: Selector, so: Selection)
    requires s.q.Valid()
    ensures SelectMembers(data, s, so, []) == Some(so)
  {
  }

  lemma StampedIffSeen(stamps: seq<nat>, pools: Pools, generation: nat, seen: set<(bool, nat)>, key: (bool, nat))
    requires Stamped(stamps, pools, generation, seen) && key.1 < pools.OfKind(key.0)
    ensures stamps[StampSlot(pools, key)] == generation <==> key in seen
  {
  }

  lemma JoinedFrom(data: seq<byte>, first: nat, sizes: seq<nat>, pools: Pools, members: seq<Member>,
                   offset: nat, group: nat, done: nat, index: nat, seen: set<(bool, nat)>)
    requires |sizes| == 4 && Reached(data, first, sizes, pools, members, offset, group, done, index, seen)
    ensures group <= 4 && (group < 4 ==> done <= sizes[group])
    ensures MembersFrom(data, first, sizes, 0, 0, 0, {}, pools) ==
            Joined(members, MembersFrom(data, offset, sizes, group, done, index, seen, pools))
  {
  }

  lemma AfterNothing(found: Option<Found>)
    ensures After(Found(false, Counters(0, 0, 0)), found) == found
  {
  }

  lemma SelectCodeIsFound(data: seq<byte>, s: Selector, index: nat, code: nat)
    requires s.q.Valid()
    ensures SelectCode(data, s, index, code) ==
            if !MethodInPools(data, s, index) then None
            else if code == 0 then Some(Found(false, Counters(0, 0, 1)))
            else match CodeBounds(data, code)
                 case None => None
                 case Some((start, end)) => FoundFrom(data, s, start, end)
  {
    hide FoundFrom;
    if CodeBounds(data, code).Some? {
      var (start, end) := CodeBounds(data, code).value;
      FoundFromIsWalk(data, s, start, start, end);
    }
  }

  lemma FoundFails(data: seq<byte>, s: Selector, position: nat, end: nat, so: Found)
    requires s.q.Valid() && position < end <= |data| && Decode(data, s.q, position, end).None?
    ensures After(so, FoundFrom(data, s, position, end)) == None
  {
    hide Decode;
  }

  lemma FoundEnd(data: seq<byte>, s: Selector, end: nat, so: Found)
    requires s.q.Valid() && end <= |data|
    ensures After(so, FoundFrom(data, s, end, end)) == Some(so)
  {
  }

  lemma AfterOne(so: Found, one: Found)
    ensures After(so, Some(one)) == Some(Found(so.wanted || one.wanted, so.counters.Plus(one.counters)))
  {
  }

  lemma FoundStep(data: seq<byte>, s: Selector, position: nat, end: nat, so: Found)
    requires s.q.Valid() && position < end <= |data| && Decode(data, s.q, position, end).Some?
    requires Fits(data, position) && OperandInPool(data, s.q, position)
    requires position + Decode(data, s.q, position, end).value.bytes <= end
    ensures After(so, FoundFrom(data, s, position, end)) ==
            After(After(so, Some(FoundAt(data, s, position))).value,
                  FoundFrom(data, s, position + Decode(data, s.q, position, end).value.bytes, end))
  {
    hide Decode;
    hide Keeps;
    hide OperandInPool;
    hide Fits;
    var rest := FoundFrom(data, s, position + Decode(data, s.q, position, end).value.bytes, end);
    assert FoundFrom(data, s, position, end) == After(FoundAt(data, s, position), rest);
    AfterAssociates(so, FoundAt(data, s, position), rest);
  }

  lemma AfterAssociates(a: Found, b: Found, rest: Option<Found>)
    ensures After(a, After(b, rest)) == After(After(a, Some(b)).value, rest)
  {
  }
}
