/** A DEX on which selecting, sorting and rescanning answers a query in another order than one pass:
    three overloads whose name stands twice in the string pool, used in the order first copy, second
    copy, first copy. The last two call the first, which has no code. The method table, the class and
    its code are bytes; of the string pool and the prototypes only the texts are given, and the header
    is left out: what it says of the pools are fields of the input. */
module TangledQueries {
  import opened Bytes
  import opened DexCursor
  import opened ClassData
  import opened DexSelection
  import opened Sorting
  import opened MethodOrder
  import opened MethodSelection
  import opened References

  /** A class at 0, three method entries at 32 with prototypes 0, 1 and 2 and names 0, 1 and 0, its
      class data at 56, and a code item at 72 that holds one invocation of method 0. */
  function ByteAt(i: nat): byte {
    match i
    case 24 => 56
    case 42 => 1
    case 44 => 1
    case 50 => 2
    case 58 => 3
    case 63 => 1
    case 65 => 72
    case 66 => 1
    case 68 => 72
    case 84 => 3
    case 88 => 0x6E
    case _ => 0
  }

  function Data(): (r: seq<byte>)
    ensures |r| == 94 && forall i :: 0 <= i < 94 ==> r[i] == ByteAt(i)
  {
    seq(94, (i: nat) => ByteAt(i))
  }

  /** Method 0 is wanted. */
  function Mask(): (r: seq<byte>)
    ensures |r| == 0x1_0000 && forall i :: 0 <= i < 0x1_0000 ==> r[i] == if i == 0 then 1 else 0
  {
    seq(0x1_0000, (i: nat) => if i == 0 then 1 else 0)
  }

  function Names(): Table {
    Table((index: nat) => if index == 1 then 1 else 0, (id: nat) => [97], (index: nat) => [index])
  }

  /** The table says what the method entries do: which name a method has, and which prototype, of the
      given texts (class, prototype and name, two, two and four bytes an entry). */
  ghost predicate ReadsEntries(input: Input, texts: nat -> Key) {
    && input.methodOffset + 8 * input.pools.methods <= |input.data|
    && forall index :: 0 <= index < input.pools.methods ==>
         && input.table.nameId(index) == U32(input.data, input.methodOffset + 8 * index + 4) < input.strings
         && U16(input.data, input.methodOffset + 8 * index + 2) < input.protos
         && input.table.prototype(index) == texts(U16(input.data, input.methodOffset + 8 * index + 2))
  }

  function TangledInput(): Input {
    Input(Data(), 35, Mask(), 32, 2, 3, Pools(0, 3), [([76], 0)], Names())
  }

  function CallersOfFirst(): Question {
    Question(MethodPool, All, 0, 100)
  }

  function TangledSelector(): Selector {
    SelectorOf(TangledInput(), CallersOfFirst())
  }

  lemma EntryBytes(index: nat)
    requires index < 3
    ensures U32(Data(), 32 + 8 * index + 4) == (if index == 1 then 1 else 0) && U16(Data(), 32 + 8 * index + 2) == index
  {
    var data := Data();
    if index == 0 {
      assert U16(data, 36) == 0 && U16(data, 38) == 0 && U16(data, 34) == 0;
    } else if index == 1 {
      assert U16(data, 44) == 1 && U16(data, 46) == 0 && U16(data, 42) == 1;
    } else {
      assert U16(data, 52) == 0 && U16(data, 54) == 0 && U16(data, 50) == 2;
    }
  }

  /** The table is read from the bytes: one name stands for both strings, and the prototypes differ. */
  lemma TangledReads()
    ensures ReadsEntries(TangledInput(), (proto: nat) => [proto])
  {
    hide U32, U16, Mask, ByteAt;
    EntryBytes(0);
    EntryBytes(1);
    EntryBytes(2);
    assert |TangledInput().data| == 94;
    hide Data;
  }

  lemma TangledIsAsked()
    ensures Asked(TangledInput(), CallersOfFirst()) && Suits(TangledInput(), TangledSelector())
  {
  }

  // ---------------------------------------------------------------------------------------
  // The members of the class
  // ---------------------------------------------------------------------------------------

  lemma ShortLeb(data: seq<byte>, offset: nat)
    requires offset < |data| && data[offset] < 128
    ensures Leb(data, offset) == Some((data[offset] as nat, offset + 1))
  {
  }

  lemma CountsStep(data: seq<byte>, offset: nat, n: nat, sizes: seq<nat>, next: nat)
    requires Counts(data, offset, n) == Some((sizes, next)) && next < |data| && data[next] < 128
    ensures Counts(data, offset, n + 1) == Some((sizes + [data[next] as nat], next + 1))
  {
    ShortLeb(data, next);
    hide Leb;
  }

  lemma TangledCounts()
    ensures Counts(Data(), 56, 4) == Some(([0, 0, 3, 0], 60))
  {
    var data := Data();
    assert Counts(data, 56, 0) == Some(([], 56));
    hide Counts;
    hide Data;
    CountsStep(data, 56, 0, [], 56);
    assert [] + [0] == [0] && [0] + [0] == [0, 0] && [0, 0] + [3] == [0, 0, 3] && [0, 0, 3] + [0] == [0, 0, 3, 0];
    CountsStep(data, 56, 1, [0], 57);
    CountsStep(data, 56, 2, [0, 0], 58);
    CountsStep(data, 56, 3, [0, 0, 3], 59);
  }

  /** A method entry of three short numbers. */
  lemma ShortMember(data: seq<byte>, offset: nat, index: nat, seen: set<(bool, nat)>, pools: Pools)
    requires offset + 3 <= |data| && data[offset] < 128 && data[offset + 1] < 128 && data[offset + 2] < 128
    requires index + data[offset] as nat < pools.methods && ClassData.Key(2, index + data[offset] as nat) !in seen
    ensures ReadMember(data, offset, 2, index, seen, pools) ==
            Some((Member(2, index + data[offset] as nat, data[offset + 1] as nat, data[offset + 2] as nat), offset + 3))
  {
    ShortLeb(data, offset);
    ShortLeb(data, offset + 1);
    ShortLeb(data, offset + 2);
    hide LebFrom;
    hide Leb;
  }

  function Overload(index: nat): Member {
    Member(2, index, 0, if index == 0 then 0 else 72)
  }

  function ThreeOverloads(): seq<Member> {
    [Overload(0), Overload(1), Overload(2)]
  }

  /** One more method in front of the rest. */
  lemma MembersStep(data: seq<byte>, offset: nat, sizes: seq<nat>, done: nat, index: nat, seen: set<(bool, nat)>,
                    pools: Pools, member: Member, next: nat, rest: seq<Member>)
    requires |sizes| == 4 && done < sizes[2] && ReadMember(data, offset, 2, index, seen, pools) == Some((member, next))
    requires MembersFrom(data, next, sizes, 2, done + 1, member.index, seen + {ClassData.Key(2, member.index)}, pools) ==
             Some(rest)
    ensures MembersFrom(data, offset, sizes, 2, done, index, seen, pools) == Some([member] + rest)
  {
    hide ReadMember;
  }

  lemma NoMembers(data: seq<byte>, offset: nat, sizes: seq<nat>, group: nat, done: nat, index: nat, seen: set<(bool, nat)>,
                  pools: Pools)
    requires |sizes| == 4 && group < 4 && done == sizes[group]
    ensures MembersFrom(data, offset, sizes, group, done, index, seen, pools) ==
            MembersFrom(data, offset, sizes, group + 1, 0, 0, seen, pools)
    ensures group == 3 ==> MembersFrom(data, offset, sizes, group, done, index, seen, pools) == Some([])
  {
    hide ReadMember;
  }

  lemma TangledMembersFrom()
    ensures MembersFrom(Data(), 60, [0, 0, 3, 0], 0, 0, 0, {}, Pools(0, 3)) == Some(ThreeOverloads())
  {
    var data, sizes, pools := Data(), [0, 0, 3, 0], Pools(0, 3);
    var one := {} + {ClassData.Key(2, 0)};
    var two := one + {ClassData.Key(2, 1)};
    var three := two + {ClassData.Key(2, 2)};
    ShortMember(data, 60, 0, {}, pools);
    ShortMember(data, 63, 0, one, pools);
    ShortMember(data, 66, 1, two, pools);
    hide ReadMember;
    hide MembersFrom;
    hide Data;
    var a, b, c := Overload(0), Overload(1), Overload(2);
    NoMembers(data, 69, sizes, 3, 0, 0, three, pools);
    NoMembers(data, 69, sizes, 2, 3, 2, three, pools);
    MembersStep(data, 66, sizes, 2, 1, two, pools, c, 69, []);
    MembersStep(data, 63, sizes, 1, 0, one, pools, b, 66, [c] + []);
    MembersStep(data, 60, sizes, 0, 0, {}, pools, a, 63, [b] + ([c] + []));
    NoMembers(data, 60, sizes, 1, 0, 0, {}, pools);
    NoMembers(data, 60, sizes, 0, 0, 0, {}, pools);
    assert [a] + ([b] + ([c] + [])) == [a, b, c];
  }

  lemma TangledMembers()
    ensures ClassMembers(Data(), 0, Pools(0, 3)) == Some(ThreeOverloads())
  {
    TangledCounts();
    TangledSum();
    TangledMembersFrom();
    hide Counts;
    hide MembersFrom;
    hide Sum;
    hide U32;
  }

  lemma TangledSum()
    ensures Sum([0, 0, 3, 0]) == 3 && U32(Data(), 24) == 56
  {
    assert [0, 0, 3, 0][..3] == [0, 0, 3] && [0, 0, 3][..2] == [0, 0] && [0, 0][..1] == [0] && [0][..0] == [];
    assert Sum([0]) == 0 && Sum([0, 0]) == 0 && Sum([0, 0, 3]) == 3;
  }

  lemma TangledMethods()
    ensures MethodsOf(TangledInput(), 0) == ThreeOverloads()
  {
    TangledMembers();
    hide ClassMembers;
    hide Data;
    hide Mask;
    var all := ThreeOverloads();
    assert all[..2] == [Overload(0), Overload(1)] && all[..2][..1] == [Overload(0)] && [Overload(0)][..0] == [];
    assert Methods([]) == [];
    assert Methods([Overload(0)]) == [Overload(0)];
    assert Methods(all[..2]) == [Overload(0), Overload(1)];
  }

  // ---------------------------------------------------------------------------------------
  // Their instructions
  // ---------------------------------------------------------------------------------------

  lemma TangledCode()
    ensures CodeBounds(Data(), 72) == Some((88, 94))
    ensures Instructions(Data(), 88, 88, 94, 35) == Some([Instruction(88, 0, 0x6E)])
    ensures U16(Data(), 90) == 0
  {
    var data := Data();
    assert U32(data, 84) == 3;
    assert Units(data, 88, 94, 35) == Some(3);
    assert Instructions(data, 88, 94, 94, 35) == Some([]);
    hide Units;
    assert [Instruction(88, 0, 0x6E)] + [] == [Instruction(88, 0, 0x6E)];
  }

  lemma TangledEntries(index: nat)
    requires index < 3
    ensures MethodInPools(Data(), TangledSelector(), index)
  {
  }

  /** The first overload has nothing to walk, the others one invocation of it. */
  lemma TangledWalk(index: nat)
    requires index < 3
    ensures TangledSelector().q.Valid()
    ensures Walk(Data(), TangledSelector(), Overload(index)) == Some(if index == 0 then [] else [Instruction(88, 0, 0x6E)])
  {
    TangledCode();
    TangledEntries(index);
    hide Instructions;
    hide CodeBounds;
    hide MethodInPools;
    hide Data;
    hide Mask;
    assert OperandInPool(Data(), TangledSelector().q, 88);
  }

  lemma TangledIsAccepted()
    ensures Suits(TangledInput(), TangledSelector()) && Accepted(TangledInput(), TangledSelector())
  {
    TangledIsAsked();
    TangledWalk(0);
    TangledWalk(1);
    TangledWalk(2);
    TangledMembers();
    TangledMethods();
    hide Walk;
    hide ClassMembers;
    hide MethodsOf;
    hide Data;
    hide Mask;
  }

  lemma TangledShows()
    ensures var input, s := TangledInput(), TangledSelector();
            && s.q.Valid() && !Kept(input, s)(Overload(0)) && Kept(input, s)(Overload(1)) && Kept(input, s)(Overload(2))
            && HitsOf(input, s, 0)(Overload(1)) != [] && HitsOf(input, s, 0)(Overload(2)) != []
  {
    var input, s := TangledInput(), TangledSelector();
    TangledWalk(0);
    TangledWalk(1);
    TangledWalk(2);
    TangledCode();
    hide Instructions;
    hide CodeBounds;
    hide Walk;
    hide Data;
    hide Mask;
    var i := Instruction(88, 0, 0x6E);
    assert [i][0].position == 88;
    assert Matches(input.data, s.q, 88) && Keeps(input.data, s, 88);
  }

  lemma LaterTwoKept(a: Member, b: Member, c: Member, keep: Member -> bool)
    requires !keep(a) && keep(b) && keep(c)
    ensures Filter([a, b, c], keep) == [b, c]
  {
    assert [a, b, c] == [a] + [b, c] && [b, c] == [b] + [c];
    FilterCons(a, [b, c], keep);
    FilterCons(b, [c], keep);
    FilterOne(c, keep);
  }

  /** Over all rows the first copy of the name is used first, over the kept ones the second. */
  lemma OverloadsSwap(keep: Member -> bool)
    requires !keep(Overload(0)) && keep(Overload(1)) && keep(Overload(2))
    ensures Swaps(Names(), ThreeOverloads(), keep, Overload(2), Overload(1))
  {
    var t, rows := Names(), ThreeOverloads();
    LaterTwoKept(Overload(0), Overload(1), Overload(2), keep);
    hide Filter;
    var kept := Filter(rows, keep);
    assert t.Id(rows[0]) == 0 && Unused(t, rows, 1, 0);
    assert t.Id(kept[0]) == 1 && Unused(t, kept, 0, 0);
  }

  lemma SwapTangles<U>(input: Input, s: Selector, c: (Name, nat), walk: Member -> seq<U>, x: Member, y: Member)
    requires s.q.Valid() && c in input.classes && x in MethodsOf(input, c.1) && y in MethodsOf(input, c.1)
    requires walk(x) != [] && walk(y) != [] && Swaps(input.table, MethodsOf(input, c.1), Kept(input, s), x, y)
    ensures Tangles(input, s, walk)
  {
    hide Kept;
    hide MethodsOf;
    hide Swaps;
  }

  lemma TangledParts()
    ensures TangledInput().table == Names() && TangledInput().classes[0] == ([76], 0)
    ensures TangledInput().classes[0] in TangledInput().classes
    ensures ThreeOverloads()[1] == Overload(1) && ThreeOverloads()[2] == Overload(2) && |ThreeOverloads()| == 3
  {
    hide Data;
    hide Mask;
  }

  /** The overloads with hits change places. */
  lemma TangledSwaps()
    ensures var input, s := TangledInput(), TangledSelector();
            Suits(input, s) && Tangles(input, s, HitsOf(input, s, 0))
  {
    TangledIsAsked();
    hide *;
    var input, s := TangledInput(), TangledSelector();
    TangledShows();
    TangledMethods();
    TangledParts();
    OverloadsSwap(Kept(input, s));
    SwapTangles(input, s, ([76], 0), HitsOf(input, s, 0), Overload(2), Overload(1));
  }

  /** The input is accepted both ways, and answered differently. */
  lemma TwoPassesDiffer()
    ensures ReadsEntries(TangledInput(), (proto: nat) => [proto])
    ensures var input, s := TangledInput(), TangledSelector();
            && Asked(input, CallersOfFirst()) && Suits(input, s) && Accepted(input, s)
            && TwoPasses(input, s, 0).Some?
            && TwoPasses(input, s, 0).value.hits != OnePass(input, s, 0).hits
  {
    TangledReads();
    hide *;
    TangledIsAsked();
    TangledIsAccepted();
    TangledSwaps();
    TwoPassesAreOne(TangledInput(), TangledSelector(), 0);
  }
}
