/** Index copies kept in a directory under a disk budget, by operations that may be cut off after
    any change to the file system. */
module DurableIndexCache {
  import opened Bytes

  const MANIFEST_LIMIT := 4096

  const MAX_ENTRIES := 64

  const BLOCK := 0x10_0000

  type Identity = nat

  type Key = nat

  type Digest = nat

  datatype Manifest = Manifest(identity: Identity, size: nat, sha: Digest)

  /** A directory: its index file, its manifest, and when it was last used. Either file may be
      missing where an operation was cut off. */
  datatype Entry = Entry(index: Option<seq<byte>>, manifest: Option<Manifest>, mtime: int)

  datatype Slot = Slot(key: Key, entry: Entry)

  /** What the library computes: the digest of a file, the key of an identity, and the length of an
      encoded manifest. */
  datatype Library = Library(digest: seq<byte> -> Digest, key: Identity -> Key, manifestSize: Manifest -> nat)

  // ---------------------------------------------------------------------------------------
  // Sizes
  // ---------------------------------------------------------------------------------------

  function EntrySize(lib: Library, e: Entry): nat {
    (match e.index case Some(bytes) => |bytes| case None => 0)
    + (match e.manifest case Some(m) => lib.manifestSize(m) case None => 0)
  }

  function Total(lib: Library, slots: seq<Slot>): nat {
    if slots == [] then 0 else EntrySize(lib, slots[0].entry) + Total(lib, slots[1..])
  }

  function Without(slots: seq<Slot>, i: nat): seq<Slot>
    requires i < |slots|
  {
    slots[..i] + slots[i + 1..]
  }

  lemma {:induction false} TotalUpdate(lib: Library, slots: seq<Slot>, i: nat, slot: Slot)
    requires i < |slots|
    ensures Total(lib, slots[i := slot]) == Total(lib, slots) - EntrySize(lib, slots[i].entry) + EntrySize(lib, slot.entry)
  {
    hide EntrySize;
    if i > 0 {
      TotalUpdate(lib, slots[1..], i - 1, slot);
      assert slots[i := slot][1..] == slots[1..][i - 1 := slot];
    } else {
      assert slots[i := slot][1..] == slots[1..];
    }
  }

  lemma {:induction false} TotalWithout(lib: Library, slots: seq<Slot>, i: nat)
    requires i < |slots|
    ensures Total(lib, Without(slots, i)) == Total(lib, slots) - EntrySize(lib, slots[i].entry)
  {
    hide EntrySize;
    if i > 0 {
      TotalWithout(lib, slots[1..], i - 1);
      assert Without(slots, i)[1..] == Without(slots[1..], i - 1);
    } else {
      assert Without(slots, i) == slots[1..];
    }
  }

  lemma {:induction false} TotalAppend(lib: Library, slots: seq<Slot>, slot: Slot)
    ensures Total(lib, slots + [slot]) == Total(lib, slots) + EntrySize(lib, slot.entry)
  {
    hide EntrySize;
    if slots == [] {
      assert slots + [slot] == [slot] && [slot][1..] == [];
    } else {
      TotalAppend(lib, slots[1..], slot);
      assert (slots + [slot])[1..] == slots[1..] + [slot];
    }
  }

  function Find(slots: seq<Slot>, key: Key): (r: nat)
    ensures r <= |slots| && (r < |slots| ==> slots[r].key == key)
    ensures r == |slots| ==> forall i :: 0 <= i < |slots| ==> slots[i].key != key
  {
    if slots == [] || slots[0].key == key then 0 else 1 + Find(slots[1..], key)
  }

  /** The entries without that of a key. */
  function Except(slots: seq<Slot>, key: Key): seq<Slot> {
    var i := Find(slots, key);
    if i < |slots| then Without(slots, i) else slots
  }

  predicate Older(a: Slot, b: Slot) {
    a.entry.mtime < b.entry.mtime || (a.entry.mtime == b.entry.mtime && a.key < b.key)
  }

  /** The entry used longest ago, by name among equals. */
  function Oldest(slots: seq<Slot>): (r: nat)
    requires slots != []
    ensures r < |slots| && forall i :: 0 <= i < |slots| ==> !Older(slots[i], slots[r])
  {
    if |slots| == 1 then 0
    else
      var rest := 1 + Oldest(slots[1..]);
      if Older(slots[rest], slots[0]) then rest else 0
  }

  ghost predicate OneEach(slots: seq<Slot>) {
    forall i, j :: 0 <= i < j < |slots| ==> slots[i].key != slots[j].key
  }

  // ---------------------------------------------------------------------------------------
  // The cache
  // ---------------------------------------------------------------------------------------

  datatype Outcome = Crashed | Disabled | TooLarge | Failed | Stored | Missing | Restored

  ghost function Keys(slots: seq<Slot>): (r: set<Key>)
    ensures forall i :: 0 <= i < |slots| ==> slots[i].key in r
    ensures forall key :: key in r ==> exists i :: 0 <= i < |slots| && slots[i].key == key
  {
    set slot | slot in slots :: slot.key
  }

  lemma KeysWithin(before: seq<Slot>, after: seq<Slot>)
    requires Parts(before, after)
    ensures Keys(after) <= Keys(before)
  {
    hide Keys;
    forall key | key in Keys(after) ensures key in Keys(before) {
      var i :| 0 <= i < |after| && after[i].key == key;
      assert PartOf(after[i], before);
      var x :| x in before && Part(after[i], x);
      var j :| 0 <= j < |before| && before[j] == x;
      assert before[j].key == key;
    }
  }

  /** A complete entry holds the file its manifest records; a cut-off one is not complete. */
  ghost predicate HonestSlot(lib: Library, slot: Slot) {
    slot.entry.index.Some? && slot.entry.manifest.Some? ==>
      var m, bytes := slot.entry.manifest.value, slot.entry.index.value;
      slot.key == lib.key(m.identity) && |bytes| == m.size && lib.digest(bytes) == m.sha
  }

  ghost predicate AllHonest(lib: Library, slots: seq<Slot>) {
    forall i :: 0 <= i < |slots| ==> HonestSlot(lib, slots[i])
  }

  /** What is left of an entry has none but its files. */
  ghost predicate Part(a: Slot, b: Slot) {
    && a.key == b.key
    && (a.entry.index == None || a.entry.index == b.entry.index)
    && (a.entry.manifest == None || a.entry.manifest == b.entry.manifest)
  }

  ghost predicate PartOf(a: Slot, before: seq<Slot>) {
    exists b :: b in before && Part(a, b)
  }

  ghost predicate Parts(before: seq<Slot>, after: seq<Slot>) {
    forall i :: 0 <= i < |after| ==> PartOf(after[i], before)
  }

  lemma PartsTwice(a: seq<Slot>, b: seq<Slot>, c: seq<Slot>)
    requires Parts(a, b) && Parts(b, c)
    ensures Parts(a, c)
  {
    forall i | 0 <= i < |c| ensures PartOf(c[i], a) {
      var y :| y in b && Part(c[i], y);
      var k :| 0 <= k < |b| && b[k] == y;
      assert PartOf(b[k], a);
      var x :| x in a && Part(y, x);
      assert Part(c[i], x);
    }
  }

  /** Entries that were there before, or what is left of them. */
  ghost predicate Remains(lib: Library, before: seq<Slot>, after: seq<Slot>) {
    && Total(lib, after) <= Total(lib, before) && |after| <= |before|
    && (OneEach(before) ==> OneEach(after)) && (AllHonest(lib, before) ==> AllHonest(lib, after))
    && Keys(after) <= Keys(before) && Parts(before, after)
  }

  lemma RemainsTwice(lib: Library, a: seq<Slot>, b: seq<Slot>, c: seq<Slot>)
    requires Remains(lib, a, b) && Remains(lib, b, c)
    ensures Remains(lib, a, c)
  {
    hide Parts, Total, AllHonest, OneEach, Keys;
    PartsTwice(a, b, c);
  }

  lemma RemainsKeys(lib: Library, before: seq<Slot>, after: seq<Slot>)
    requires Remains(lib, before, after)
    ensures Keys(after) <= Keys(before) && (OneEach(before) ==> OneEach(after))
  {
  }

  lemma RemainsMeans(lib: Library, before: seq<Slot>, after: seq<Slot>)
    requires Remains(lib, before, after)
    ensures Total(lib, after) <= Total(lib, before) && |after| <= |before|
    ensures OneEach(before) && AllHonest(lib, before) ==> OneEach(after) && AllHonest(lib, after)
  {
  }

  lemma EmptySize(lib: Library, now: int)
    ensures EntrySize(lib, Entry(Some([]), None, now)) == 0
  {
  }

  lemma NewSlot(lib: Library, slots: seq<Slot>, slot: Slot)
    requires HonestSlot(lib, slot)
    ensures OneEach(slots) && AllHonest(lib, slots) && slot.key !in Keys(slots) ==>
              OneEach(slots + [slot]) && AllHonest(lib, slots + [slot])
    ensures slot.key in Keys(slots + [slot])
  {
    hide HonestSlot, Keys;
    assert (slots + [slot])[|slots|] == slot;
  }

  /** The manifest an identity's entry holds. */
  ghost predicate Recorded(lib: Library, slots: seq<Slot>, identity: Identity, m: Manifest) {
    m.identity == identity && exists i :: 0 <= i < |slots| && slots[i].key == lib.key(identity)
                                          && slots[i].entry.manifest == Some(m)
  }

  lemma RecordedBefore(lib: Library, before: seq<Slot>, after: seq<Slot>, identity: Identity, i: nat)
    requires Remains(lib, before, after) && i < |after| && after[i].key == lib.key(identity)
    requires after[i].entry.manifest.Some? && after[i].entry.manifest.value.identity == identity
    ensures Recorded(lib, before, identity, after[i].entry.manifest.value)
  {
    hide Total, OneEach, AllHonest, Keys;
    assert PartOf(after[i], before);
    var x :| x in before && Part(after[i], x);
    var j :| 0 <= j < |before| && before[j] == x;
    assert before[j].entry.manifest == after[i].entry.manifest;
  }

  lemma RemainsSame(lib: Library, a: seq<Slot>)
    ensures Remains(lib, a, a)
  {
    forall i | 0 <= i < |a| ensures PartOf(a[i], a) {
      assert a[i] in a && Part(a[i], a[i]);
    }
  }

  lemma RemainsWithout(lib: Library, slots: seq<Slot>, i: nat)
    requires i < |slots|
    ensures Remains(lib, slots, Without(slots, i))
  {
    hide HonestSlot, Total, EntrySize, Keys;
    TotalWithout(lib, slots, i);
    var after := Without(slots, i);
    forall k | 0 <= k < |after| ensures PartOf(after[k], slots) {
      var j := if k < i then k else k + 1;
      assert slots[j] in slots && Part(after[k], slots[j]);
    }
    KeysWithin(slots, after);
  }

  /** An entry that loses one of its files. */
  function Stripped(e: Entry, manifestFirst: bool): Entry {
    if manifestFirst then e.(manifest := None) else e.(index := None)
  }

  lemma RemainsStripped(lib: Library, slots: seq<Slot>, i: nat, manifestFirst: bool)
    requires i < |slots|
    ensures Remains(lib, slots, slots[i := slots[i].(entry := Stripped(slots[i].entry, manifestFirst))])
  {
    hide Total, Keys;
    var after := slots[i := slots[i].(entry := Stripped(slots[i].entry, manifestFirst))];
    TotalUpdate(lib, slots, i, after[i]);
    forall k | 0 <= k < |after| ensures PartOf(after[k], slots) {
      assert slots[k] in slots && Part(after[k], slots[k]);
    }
    KeysWithin(slots, after);
  }

  // ---------------------------------------------------------------------------------------
  // Expiry and eviction
  // ---------------------------------------------------------------------------------------

  /** The entries used within the time to live. */
  function Live(slots: seq<Slot>, now: int, ttl: int): seq<Slot> {
    if slots == [] then []
    else (if now - slots[0].entry.mtime < ttl then [slots[0]] else []) + Live(slots[1..], now, ttl)
  }

  lemma {:induction false} LiveWithout(slots: seq<Slot>, i: nat, now: int, ttl: int)
    requires i < |slots| && now - slots[i].entry.mtime >= ttl
    ensures Live(Without(slots, i), now, ttl) == Live(slots, now, ttl)
  {
    if i > 0 {
      LiveWithout(slots[1..], i - 1, now, ttl);
      assert Without(slots, i)[1..] == Without(slots[1..], i - 1);
    } else {
      assert Without(slots, i) == slots[1..];
    }
  }

  lemma {:induction false} LiveIsAll(slots: seq<Slot>, now: int, ttl: int)
    requires forall i :: 0 <= i < |slots| ==> now - slots[i].entry.mtime < ttl
    ensures Live(slots, now, ttl) == slots
  {
    if slots != [] {
      LiveIsAll(slots[1..], now, ttl);
    }
  }

  lemma {:induction false} LiveMember(slots: seq<Slot>, now: int, ttl: int, slot: Slot)
    ensures slot in Live(slots, now, ttl) <==> slot in slots && now - slot.entry.mtime < ttl
  {
    if slots != [] {
      assert slots == [slots[0]] + slots[1..];
      LiveMember(slots[1..], now, ttl, slot);
    }
  }

  lemma {:induction false} LiveIsLess(lib: Library, slots: seq<Slot>, now: int, ttl: int)
    ensures Total(lib, Live(slots, now, ttl)) <= Total(lib, slots) && |Live(slots, now, ttl)| <= |slots|
  {
    hide EntrySize;
    if slots != [] {
      LiveIsLess(lib, slots[1..], now, ttl);
      var rest := Live(slots[1..], now, ttl);
      assert ([slots[0]] + rest)[1..] == rest && [] + rest == rest;
    }
  }

  /** Room for `size` more bytes and `more` more entries. */
  predicate Room(lib: Library, slots: seq<Slot>, budget: nat, size: nat, more: nat) {
    Total(lib, slots) + size <= budget && |slots| + more <= MAX_ENTRIES
  }

  /** The entries used longest ago are gone, in this order: none that is left is older than one that
      is gone, and with the last of those gone still there would be no room. */
  ghost predicate Leaving(lib: Library, before: seq<Slot>, gone: seq<Slot>, after: seq<Slot>, budget: nat, size: nat,
                          more: nat)
  {
    && multiset(before) == multiset(gone) + multiset(after)
    && (forall i, j :: 0 <= i < j < |gone| ==> !Older(gone[j], gone[i]))
    && (forall x, y :: x in gone && y in after ==> !Older(y, x))
    && (gone != [] ==> Total(lib, after) + EntrySize(lib, gone[|gone| - 1].entry) + size > budget
                       || |after| + 1 + more > MAX_ENTRIES)
  }

  /** What is left when the least recently used are dropped, and no more than needed. */
  ghost predicate Leaves(lib: Library, before: seq<Slot>, after: seq<Slot>, budget: nat, size: nat, more: nat) {
    && (after != [] ==> Room(lib, after, budget, size, more))
    && exists gone :: Leaving(lib, before, gone, after, budget, size, more)
  }

  lemma NothingLeaves(lib: Library, slots: seq<Slot>, budget: nat, size: nat, more: nat)
    ensures Leaving(lib, slots, [], slots, budget, size, more)
  {
  }

  lemma LeavingStep(lib: Library, before: seq<Slot>, gone: seq<Slot>, after: seq<Slot>, budget: nat, size: nat, more: nat)
    requires Leaving(lib, before, gone, after, budget, size, more) && after != []
    requires !Room(lib, after, budget, size, more)
    ensures var i := Oldest(after); Leaving(lib, before, gone + [after[i]], Without(after, i), budget, size, more)
  {
    var i := Oldest(after);
    var x, rest := after[i], Without(after, i);
    TotalWithout(lib, after, i);
    WithoutParts(after, i);
    hide Total, EntrySize, Older, Without, Oldest;
    var longer := gone + [x];
    forall a, b | 0 <= a < b < |longer| ensures !Older(longer[b], longer[a]) {
      if b == |gone| {
        assert longer[a] in gone && x in after;
      }
    }
    assert longer[|longer| - 1] == x;
  }

  lemma WithoutParts(slots: seq<Slot>, i: nat)
    requires i < |slots|
    ensures multiset(slots) == multiset(Without(slots, i)) + multiset{slots[i]} && |Without(slots, i)| == |slots| - 1
    ensures slots[i] in slots && forall y :: y in Without(slots, i) ==> y in slots
  {
    assert slots == slots[..i] + [slots[i]] + slots[i + 1..];
    var rest := Without(slots, i);
    forall y | y in rest ensures y in slots {
      var k :| 0 <= k < |rest| && rest[k] == y;
      assert slots[if k < i then k else k + 1] == y;
    }
  }

  /** What is on disk: published entries, and the copy being made. */
  datatype Disk = Disk(slots: seq<Slot>, pending: Option<Entry>)
  {
    function Bytes(lib: Library): nat {
      Total(lib, slots) + match pending case None => 0 case Some(e) => EntrySize(lib, e)
    }

    function Directories(): nat {
      |slots| + if pending.Some? then 1 else 0
    }

    /** Published files are what their manifest records, under the key of its identity. */
    ghost predicate Honest(lib: Library) {
      OneEach(slots) && AllHonest(lib, slots)
    }
  }

  /** A look for an identity, and what it came to. */
  datatype Lookup = Lookup(identity: Identity, targetExists: bool, now: int, outcome: Outcome, copy: Option<seq<byte>>)

  class DurableIndexes {
    const lib: Library
    const budget: nat
    const indexLimit: nat
    const ttl: int
    var slots: seq<Slot>
    var pending: Option<Entry>
    /** How many more changes the file system takes before the process dies. */
    var left: nat

    constructor (lib: Library, budget: nat, indexLimit: nat, ttl: int, left: nat)
      ensures this.lib == lib && this.budget == budget && this.indexLimit == indexLimit && slots == [] && pending == None
    {
      this.lib, this.budget, this.indexLimit, this.ttl, this.left := lib, budget, indexLimit, ttl, left;
      slots, pending := [], None;
    }

    function PendingSize(): nat
      reads this`pending
    {
      match pending
      case None => 0
      case Some(e) => EntrySize(lib, e)
    }

    /** What a file has grown since it was measured. */
    function Excess(size: nat, content: seq<byte>): nat {
      if |content| > size then |content| - size else 0
    }

    ghost function OnDisk(): Disk
      reads this`slots, this`pending
    {
      Disk(slots, pending)
    }

    /** Everything on disk: published entries and the pending copy. */
    ghost function Used(): nat
      reads this`slots, this`pending
    {
      OnDisk().Bytes(lib)
    }

    ghost function Count(): nat
      reads this`slots, this`pending
    {
      OnDisk().Directories()
    }

    ghost predicate Honest()
      reads this`slots
    {
      OneEach(slots) && AllHonest(lib, slots)
    }

    /** What an operation may do to the disk, wherever it is cut off: it exceeds neither what was there
        nor the budget by more than a file has grown, and keeps honest entries honest. */
    ghost predicate Step(before: Disk, after: Disk, grown: nat) {
      && (after.Bytes(lib) <= before.Bytes(lib) || after.Bytes(lib) <= budget + grown)
      && (after.Directories() <= before.Directories() || after.Directories() <= MAX_ENTRIES)
      && (before.Honest(lib) ==> after.Honest(lib))
    }

    ghost predicate Grows(before: Disk, after: Disk, most: nat) {
      exists grown: nat :: grown <= most && Step(before, after, grown)
    }

    /** Over any run of publications, restores and surveys, cut off anywhere and taken over by other
        processes: the disk never exceeds what it was at first, nor the budget by more than the most a
        file has grown while it was copied, and what is published stays honest. */
    lemma {:induction false} RunsStayBounded(states: seq<Disk>, most: nat)
      requires states != [] && forall i :: 0 <= i < |states| - 1 ==> Grows(states[i], states[i + 1], most)
      ensures var first, last := states[0], states[|states| - 1];
              && (last.Bytes(lib) <= first.Bytes(lib) || last.Bytes(lib) <= budget + most)
              && (last.Directories() <= first.Directories() || last.Directories() <= MAX_ENTRIES)
              && (first.Honest(lib) ==> last.Honest(lib))
    {
      hide Disk.Bytes, Disk.Directories, Disk.Honest;
      if |states| > 1 {
        var n := |states| - 1;
        RunsStayBounded(states[..n], most);
        assert Grows(states[n - 1], states[n], most);
      }
    }

    /** Another process takes over what is on disk. */
    method Restart(left: nat)
      modifies this`left
      ensures this.left == left && Step(old(OnDisk()), OnDisk(), 0)
    {
      this.left := left;
    }

    /** One change to the file system, unless the process dies first. */
    method Act() returns (alive: bool)
      modifies this`left
      ensures alive <==> old(left) > 0
      ensures left == if alive then old(left) - 1 else old(left)
    {
      alive := left > 0;
      if alive {
        left := left - 1;
      }
    }

    /** Remove a directory: its files in some order, then itself. */
    method RemoveSlot(i: nat) returns (alive: bool)
      requires i < |slots|
      modifies this`slots, this`left
      ensures !alive ==> left == 0
      ensures Remains(lib, old(slots), slots)
      ensures alive ==> slots == Without(old(slots), i)
    {
      hide Remains, Stripped, Without;
      var manifestFirst: bool := *;
      ghost var before := slots;
      RemainsSame(lib, slots);
      alive := Act();
      if !alive {
        return;
      }
      RemainsStripped(lib, slots, i, manifestFirst);
      slots := slots[i := slots[i].(entry := Stripped(slots[i].entry, manifestFirst))];
      alive := Act();
      if !alive {
        return;
      }
      RemainsStripped(lib, slots, i, !manifestFirst);
      RemainsTwice(lib, before, slots, slots[i := slots[i].(entry := Stripped(slots[i].entry, !manifestFirst))]);
      slots := slots[i := slots[i].(entry := Stripped(slots[i].entry, !manifestFirst))];
      alive := Act();
      if !alive {
        return;
      }
      RemainsWithout(lib, slots, i);
      RemainsTwice(lib, before, slots, Without(slots, i));
      WithoutUpdated(before, slots, i);
      slots := Without(slots, i);
    }

    method RemovePending() returns (alive: bool)
      requires pending.Some?
      modifies this`pending, this`left
      ensures !alive ==> left == 0
      ensures PendingSize() <= old(PendingSize()) && (alive ==> pending == None)
    {
      var manifestFirst: bool := *;
      alive := Act();
      if !alive {
        return;
      }
      pending := Some(Stripped(pending.value, manifestFirst));
      alive := Act();
      if !alive {
        return;
      }
      pending := Some(Stripped(pending.value, !manifestFirst));
      alive := Act();
      if !alive {
        return;
      }
      pending := None;
    }

    /** Drop the entries not used for the time to live. */
    method Expire(now: int) returns (alive: bool)
      modifies this`slots, this`left
      ensures !alive ==> left == 0
      ensures Remains(lib, old(slots), slots)
      ensures alive ==> slots == Live(old(slots), now, ttl)
    {
      hide Remains, Without, Live;
      RemainsSame(lib, slots);
      ghost var before := slots;
      alive := true;
      var i := 0;
      while i < |slots|
        invariant i <= |slots| && Remains(lib, before, slots)
        invariant forall k :: 0 <= k < i ==> now - slots[k].entry.mtime < ttl
        invariant Live(slots, now, ttl) == Live(before, now, ttl)
        decreases |slots| - i
      {
        if now - slots[i].entry.mtime >= ttl {
          ghost var middle := slots;
          WithoutOthers(slots, i);
          LiveWithout(slots, i, now, ttl);
          alive := RemoveSlot(i);
          RemainsTwice(lib, before, middle, slots);
          if !alive {
            return;
          }
        } else {
          i := i + 1;
        }
      }
      LiveIsAll(slots, now, ttl);
    }

    /** Drop the entries used longest ago until the rest leaves room for `size` and for `more`. */
    method Evict(size: nat, more: nat) returns (alive: bool)
      modifies this`slots, this`left
      ensures !alive ==> left == 0
      ensures Remains(lib, old(slots), slots)
      ensures alive ==> Leaves(lib, old(slots), slots, budget, size, more)
      ensures Room(lib, old(slots), budget, size, more) ==> alive && slots == old(slots)
    {
      hide Remains, Total, Leaving;
      RemainsSame(lib, slots);
      ghost var before := slots;
      ghost var gone: seq<Slot> := [];
      NothingLeaves(lib, slots, budget, size, more);
      alive := true;
      while slots != [] && !Room(lib, slots, budget, size, more)
        invariant Remains(lib, before, slots) && alive
        invariant Room(lib, before, budget, size, more) ==> slots == before
        invariant Leaving(lib, before, gone, slots, budget, size, more)
        decreases |slots|
      {
        ghost var middle := slots;
        var oldest := Oldest(slots);
        LeavingStep(lib, before, gone, slots, budget, size, more);
        gone := gone + [slots[oldest]];
        alive := RemoveSlot(oldest);
        RemainsTwice(lib, before, middle, slots);
        if !alive {
          return;
        }
      }
    }

    /** What a look at the directory leaves: of the entries used within the time to live, the most
        recently used, and all of them when they fit. */
    ghost predicate Surveyed(before: seq<Slot>, after: seq<Slot>, now: int) {
      && Leaves(lib, Live(before, now, ttl), after, budget, 0, 0)
      && (Room(lib, Live(before, now, ttl), budget, 0, 0) ==> after == Live(before, now, ttl))
    }

    lemma RemainsIsStep(before: Disk, after: Disk)
      requires Remains(lib, before.slots, after.slots) && (after.pending.Some? ==> before.pending.Some?)
      requires after.Bytes(lib) - Total(lib, after.slots) <= before.Bytes(lib) - Total(lib, before.slots)
      ensures Step(before, after, 0)
    {
      RemainsMeans(lib, before.slots, after.slots);
      hide Remains, Total, EntrySize, OneEach, AllHonest;
    }

    /** What every operation does first, under the lock. */
    method Entries(now: int) returns (alive: bool)
      modifies this`slots, this`pending, this`left
      ensures !alive ==> left == 0
      ensures Remains(lib, old(slots), slots) && PendingSize() <= old(PendingSize())
      ensures pending.Some? ==> old(pending).Some?
      ensures alive ==> pending == None && Surveyed(old(slots), slots, now)
      ensures alive ==> Total(lib, slots) <= budget && |slots| <= MAX_ENTRIES
      ensures Step(old(OnDisk()), OnDisk(), 0)
    {
      hide Remains, EntrySize, Live, Leaving, Step;
      ghost var start := OnDisk();
      RemainsSame(lib, slots);
      TotalOfNothing(lib);
      alive := true;
      if pending.Some? {
        alive := RemovePending();
      }
      if alive {
        ghost var before := slots;
        alive := Expire(now);
        if alive {
          ghost var middle := slots;
          alive := Evict(0, 0);
          RemainsTwice(lib, before, middle, slots);
        }
      }
      RemainsIsStep(start, OnDisk());
    }

    /** Copy a file block by block into the pending directory, up to the index limit. */
    method Copy(content: seq<byte>) returns (alive: bool, ok: bool)
      requires pending.Some? && pending.value.index == Some([]) && pending.value.manifest == None
      modifies this`pending, this`left
      ensures !alive ==> left == 0
      ensures pending.Some? && pending.value.manifest == None && PendingSize() <= |content|
      ensures pending.value.mtime == old(pending.value.mtime)
      ensures alive ==> (ok <==> |content| <= indexLimit)
      ensures alive && ok ==> pending.value.index == Some(content)
    {
      var position := 0;
      alive, ok := true, true;
      while position < |content|
        invariant 0 <= position <= |content| && pending.Some? && pending.value.manifest == None
        invariant pending.value.index == Some(content[..position]) && (position > 0 ==> position <= indexLimit)
        invariant pending.value.mtime == old(pending.value.mtime)
      {
        var next := if position + BLOCK < |content| then position + BLOCK else |content|;
        if next > indexLimit {
          return true, false;
        }
        alive := Act();
        if !alive {
          return;
        }
        pending := Some(pending.value.(index := Some(content[..next])));
        position := next;
      }
      assert content[..|content|] == content;
    }

    /** What is kept beside a new copy: after the survey and without an entry to be replaced, the
        most recently used that leave room for the copy and its manifest. */
    ghost predicate Reserved(before: seq<Slot>, after: seq<Slot>, key: Key, size: nat, now: int) {
      exists middle :: Surveyed(before, middle, now)
                       && Leaves(lib, Except(middle, key), after, budget, size + MANIFEST_LIMIT, 1)
    }

    /** Make room for a copy of `size` bytes and its manifest beside what is kept. */
    method Reserve(key: Key, size: nat, now: int) returns (alive: bool)
      requires size + MANIFEST_LIMIT <= budget
      modifies this`slots, this`pending, this`left
      ensures !alive ==> left == 0
      ensures Remains(lib, old(slots), slots) && PendingSize() <= old(PendingSize())
      ensures pending.Some? ==> old(pending).Some?
      ensures alive ==> pending == None && Total(lib, slots) + size + MANIFEST_LIMIT <= budget && |slots| < MAX_ENTRIES
      ensures alive ==> Reserved(old(slots), slots, key, size, now)
      ensures alive && OneEach(old(slots)) ==> key !in Keys(slots)
    {
      hide Remains, EntrySize, Surveyed, Leaves, Except;
      ghost var before := slots;
      TotalOfNothing(lib);
      alive := Entries(now);
      if !alive {
        return;
      }
      ghost var middle := slots;
      alive := Supersede(key);
      RemainsTwice(lib, before, middle, slots);
      if !alive {
        return;
      }
      ghost var free := slots;
      alive := Evict(size + MANIFEST_LIMIT, 1);
      RemainsTwice(lib, before, free, slots);
      RemainsKeys(lib, before, middle);
      RemainsKeys(lib, free, slots);
      if alive {
        LeavesRoom(lib, free, slots, budget, size + MANIFEST_LIMIT, 1);
      }
    }

    /** Remove an entry that is to be replaced. */
    method Supersede(key: Key) returns (alive: bool)
      modifies this`slots, this`left
      ensures !alive ==> left == 0
      ensures Remains(lib, old(slots), slots)
      ensures alive ==> slots == Except(old(slots), key)
      ensures alive && OneEach(old(slots)) ==> key !in Keys(slots)
    {
      hide Remains;
      RemainsSame(lib, slots);
      alive := true;
      var i := Find(slots, key);
      if i < |slots| {
        alive := RemoveSlot(i);
      }
      if alive && OneEach(old(slots)) {
        NoKeyLeft(old(slots), key);
      }
    }

    /** What is recorded of a copy. */
    function Record(identity: Identity, content: seq<byte>): Manifest {
      Manifest(identity, |content|, lib.digest(content))
    }

    /** The entry of a copy. */
    function NewEntry(identity: Identity, content: seq<byte>, now: int): Slot {
      Slot(lib.key(identity), Entry(Some(content), Some(Record(identity, content)), now))
    }

    predicate Admissible(identity: Identity, content: seq<byte>) {
      |content| <= indexLimit && lib.manifestSize(Record(identity, content)) <= MANIFEST_LIMIT
    }

    /** The new entry stands beside what was kept. */
    ghost predicate Published(before: seq<Slot>, after: seq<Slot>, identity: Identity, size: nat, content: seq<byte>, now: int) {
      && Admissible(identity, content) && size + MANIFEST_LIMIT <= budget
      && exists kept :: Reserved(before, kept, lib.key(identity), size, now) && after == kept + [NewEntry(identity, content, now)]
    }

    /** Publish a copy of an index. Room is made for the size the file had before the lock was
        taken; what is copied is what the file holds by then. Cut off after any change, what is on
        disk exceeds neither what it was nor the budget by more than the file has grown. */
    method Publish(identity: Identity, size: nat, content: seq<byte>, now: int) returns (r: Outcome)
      modifies this`slots, this`pending, this`left
      ensures Step(old(OnDisk()), OnDisk(), Excess(size, content))
      ensures r == TooLarge <==> size > indexLimit || size + MANIFEST_LIMIT > budget
      ensures r == TooLarge ==> unchanged(this)
      ensures r == Stored ==> pending == None && Published(old(slots), slots, identity, size, content, now)
      ensures r == Failed ==> pending == None && !Admissible(identity, content)
                              && Reserved(old(slots), slots, lib.key(identity), size, now)
      ensures r == Crashed ==> left == 0
      ensures r in {TooLarge, Stored, Failed, Crashed}
    {
      if size > indexLimit || size + MANIFEST_LIMIT > budget {
        return TooLarge;
      }
      hide Remains, EntrySize, OneEach, AllHonest, Keys, Reserved, Total;
      ghost var before := slots;
      var alive := Reserve(lib.key(identity), size, now);
      RemainsMeans(lib, before, slots);
      if !alive {
        return Crashed;
      }
      r := Store(identity, size, content, now);
    }

    /** Copy, commit, and clear away what could not be committed. */
    method Store(identity: Identity, size: nat, content: seq<byte>, now: int) returns (r: Outcome)
      requires pending == None && Total(lib, slots) + size + MANIFEST_LIMIT <= budget && |slots| < MAX_ENTRIES
      modifies this`slots, this`pending, this`left
      ensures Used() <= budget + Excess(size, content) && Count() <= MAX_ENTRIES
      ensures old(Honest()) && lib.key(identity) !in old(Keys(slots)) ==> Honest()
      ensures r == Stored ==> pending == None && Admissible(identity, content)
                              && slots == old(slots) + [NewEntry(identity, content, now)]
      ensures r == Failed ==> pending == None && !Admissible(identity, content) && slots == old(slots)
      ensures r == Crashed ==> left == 0
      ensures r in {Stored, Failed, Crashed}
    {
      hide EntrySize, OneEach, AllHonest, Keys, Total;
      var alive := Act();
      if !alive {
        return Crashed;
      }
      var ok;
      pending := Some(Entry(Some([]), None, now));
      EmptySize(lib, now);
      alive, ok := Copy(content);
      if !alive {
        return Crashed;
      }
      if ok {
        alive, ok := Commit(identity, content);
        if !alive {
          return Crashed;
        }
        if ok {
          return Stored;
        }
      }
      alive := RemovePending();
      r := if alive then Failed else Crashed;
    }

    /** Write the manifest and give the directory its name. */
    method Commit(identity: Identity, content: seq<byte>) returns (alive: bool, ok: bool)
      requires pending.Some? && pending.value.index == Some(content) && pending.value.manifest == None
      modifies this`slots, this`pending, this`left
      ensures !alive ==> left == 0
      ensures old(Honest()) && lib.key(identity) !in old(Keys(slots)) ==> Honest()
      ensures Used() <= old(Total(lib, slots)) + |content| + MANIFEST_LIMIT && Count() == old(Count())
      ensures alive ==> (ok <==> lib.manifestSize(Record(identity, content)) <= MANIFEST_LIMIT)
      ensures alive && ok ==> pending == None && slots == old(slots) + [NewEntry(identity, content, old(pending.value.mtime))]
      ensures alive && !ok ==> pending.Some? && slots == old(slots)
    {
      hide OneEach, AllHonest, Keys, Total;
      var m := Record(identity, content);
      if lib.manifestSize(m) > MANIFEST_LIMIT {
        return true, false;
      }
      ok := true;
      alive := Act();
      if !alive {
        return;
      }
      pending := Some(pending.value.(manifest := Some(m)));
      alive := Act();
      if !alive {
        return;
      }
      var slot := Slot(lib.key(identity), pending.value);
      TotalAppend(lib, slots, slot);
      NewSlot(lib, slots, slot);
      slots, pending := slots + [slot], None;
    }

    /** Whether an entry is complete and records this identity within the limits. */
    predicate Usable(e: Entry, identity: Identity) {
      && e.manifest.Some? && lib.manifestSize(e.manifest.value) <= MANIFEST_LIMIT
      && e.manifest.value.identity == identity && e.manifest.value.size <= indexLimit
      && e.index.Some? && |e.index.value| == e.manifest.value.size
    }

    /** Whether it also holds what it records. */
    predicate Intact(e: Entry, identity: Identity) {
      Usable(e, identity) && lib.digest(e.index.value) == e.manifest.value.sha
    }

    /** What looking for an identity among the surveyed entries comes to: an intact entry is copied
        and marked as used, a usable one suffices when the target is there, any other is removed. */
    ghost predicate Answered(middle: seq<Slot>, after: seq<Slot>, identity: Identity, targetExists: bool, now: int,
                             r: Outcome, copy: Option<seq<byte>>)
    {
      var i := Find(middle, lib.key(identity));
      if i == |middle| then r == Missing && copy == None && after == middle
      else
        var e := middle[i].entry;
        if targetExists && Usable(e, identity) then r == Restored && copy == None && after == middle
        else if Intact(e, identity) then
          r == Restored && copy == e.index && after == middle[i := middle[i].(entry := e.(mtime := now))]
        else r == Missing && copy == None && after == Without(middle, i)
    }

    /** The directory is surveyed, and the identity looked for in what that leaves. */
    ghost predicate Looked(before: seq<Slot>, after: seq<Slot>, l: Lookup) {
      exists middle :: Surveyed(before, middle, l.now)
                       && Answered(middle, after, l.identity, l.targetExists, l.now, l.outcome, l.copy)
    }

    /** Restore a copy, unless the target is there already. What is copied is exactly what the
        entry's manifest records for this identity. */
    method Restore(identity: Identity, targetExists: bool, now: int) returns (r: Outcome, copy: Option<seq<byte>>)
      modifies this`slots, this`pending, this`left
      ensures Step(old(OnDisk()), OnDisk(), 0) && Used() <= old(Used()) && Count() <= old(Count())
      ensures copy.Some? ==> !targetExists && |copy.value| <= indexLimit
      ensures copy.Some? ==> exists m :: Recorded(lib, old(slots), identity, m)
                                         && |copy.value| == m.size && lib.digest(copy.value) == m.sha
      ensures r != Crashed ==> pending == None && Looked(old(slots), slots, Lookup(identity, targetExists, now, r, copy))
      ensures r == Crashed ==> left == 0
      ensures r in {Missing, Restored, Crashed}
    {
      hide Remains, EntrySize, OneEach, AllHonest, Keys, Recorded, Surveyed, Total;
      copy := None;
      ghost var before := slots;
      var alive := Entries(now);
      RemainsMeans(lib, before, slots);
      if !alive {
        return Crashed, None;
      }
      ghost var middle := slots;
      var i := Find(slots, lib.key(identity));
      if i == |slots| {
        r := Missing;
        assert Answered(middle, slots, identity, targetExists, now, r, copy);
        return;
      }
      if slots[i].entry.manifest.Some? && slots[i].entry.manifest.value.identity == identity {
        RecordedBefore(lib, before, slots, identity, i);
      }
      r, copy := RestoreSlot(i, identity, targetExists, now);
      assert r != Crashed ==> Answered(middle, slots, identity, targetExists, now, r, copy);
    }

    method RestoreSlot(i: nat, identity: Identity, targetExists: bool, now: int) returns (r: Outcome, copy: Option<seq<byte>>)
      requires i < |slots| && i == Find(slots, lib.key(identity))
      modifies this`slots, this`left
      ensures Total(lib, slots) <= old(Total(lib, slots)) && |slots| <= old(|slots|)
      ensures old(Honest()) ==> Honest()
      ensures copy.Some? ==> !targetExists && Intact(old(slots[i].entry), identity) && copy == old(slots[i].entry.index)
      ensures r != Crashed ==> Answered(old(slots), slots, identity, targetExists, now, r, copy)
      ensures r == Crashed ==> left == 0
      ensures r in {Missing, Restored, Crashed}
    {
      hide Remains, OneEach, AllHonest, Total, Without;
      var e := slots[i].entry;
      copy := None;
      ghost var before := slots;
      var good := Usable(e, identity);
      if good && targetExists {
        return Restored, None;
      }
      if !good || lib.digest(e.index.value) != e.manifest.value.sha {
        var alive := RemoveSlot(i);
        RemainsMeans(lib, before, slots);
        return if alive then Missing else Crashed, None;
      }
      var alive := Act();
      if !alive {
        return Crashed, None;
      }
      copy := e.index;
      alive := Act();
      if !alive {
        return Crashed, copy;
      }
      Touched(lib, slots, i, now);
      slots := slots[i := slots[i].(entry := e.(mtime := now))];
      r := Restored;
    }

    /** The entry of a copy, used no earlier than some time, among entries that all fit. */
    ghost predicate Holding(slots: seq<Slot>, identity: Identity, content: seq<byte>, since: int) {
      && OneEach(slots) && Room(lib, slots, budget, 0, 0)
      && exists i :: HoldingAt(slots, i, identity, content, since)
    }

    ghost predicate HoldingAt(slots: seq<Slot>, i: int, identity: Identity, content: seq<byte>, since: int) {
      && 0 <= i < |slots| && slots[i].entry.mtime >= since
      && slots[i] == NewEntry(identity, content, slots[i].entry.mtime)
    }

    /** One look leaves the entry where it is, and finds it when it is looked for. */
    lemma HoldingStays(before: seq<Slot>, after: seq<Slot>, identity: Identity, content: seq<byte>, since: int, l: Lookup)
      requires Holding(before, identity, content, since) && Looked(before, after, l) && Admissible(identity, content)
      requires since <= l.now && l.now - since < ttl
      requires lib.key(l.identity) == lib.key(identity) ==> l.identity == identity
      ensures Holding(after, identity, content, since)
      ensures l.identity == identity && !l.targetExists ==> l.outcome == Restored && l.copy == Some(content)
    {
      hide Surveyed, Answered, Room, OneEach, Admissible;
      var k :| HoldingAt(before, k, identity, content, since);
      var slot := before[k];
      var middle :| Surveyed(before, middle, l.now)
                    && Answered(middle, after, l.identity, l.targetExists, l.now, l.outcome, l.copy);
      assert slot in before;
      PublishedStays(before, slot, l.now, middle);
      SurveyFits(before, middle, l.now);
      LookKeeps(middle, after, slot, identity, content, since, l);
    }

    /** What is left of entries that fit fits. */
    lemma SurveyFits(before: seq<Slot>, middle: seq<Slot>, now: int)
      requires Room(lib, before, budget, 0, 0) && OneEach(before) && Surveyed(before, middle, now)
      ensures Room(lib, middle, budget, 0, 0) && OneEach(middle)
    {
      LiveIsLess(lib, before, now, ttl);
      hide Leaves, Total, Live;
      LiveOneEach(before, now, ttl);
    }

    lemma LookKeeps(middle: seq<Slot>, after: seq<Slot>, slot: Slot, identity: Identity, content: seq<byte>, since: int,
                    l: Lookup)
      requires OneEach(middle) && Room(lib, middle, budget, 0, 0) && Admissible(identity, content)
      requires Find(middle, slot.key) < |middle| && middle[Find(middle, slot.key)] == slot
      requires slot == NewEntry(identity, content, slot.entry.mtime) && slot.entry.mtime >= since && l.now >= since
      requires Answered(middle, after, l.identity, l.targetExists, l.now, l.outcome, l.copy)
      requires lib.key(l.identity) == lib.key(identity) ==> l.identity == identity
      ensures Holding(after, identity, content, since)
      ensures l.identity == identity && !l.targetExists ==> l.outcome == Restored && l.copy == Some(content)
    {
      var k, i := Find(middle, slot.key), Find(middle, lib.key(l.identity));
      NewIsIntact(identity, content, slot.entry.mtime);
      LookLeaves(middle, after, l);
      hide OneEach, Total, EntrySize, Without, Usable, Intact, Admissible, Room;
      assert HoldingAt(middle, k, identity, content, since);
      if i < |middle| && after == Without(middle, i) {
        WithoutKeepsSlot(middle, i, k, identity, content, since);
      } else if after != middle {
        TouchKeepsSlot(middle, i, k, identity, content, since, l.now);
      }
    }

    lemma NewIsIntact(identity: Identity, content: seq<byte>, now: int)
      requires Admissible(identity, content)
      ensures Intact(NewEntry(identity, content, now).entry, identity)
    {
    }

    /** A look leaves the entries as they are, without one, or with one marked as used. */
    lemma LookLeaves(middle: seq<Slot>, after: seq<Slot>, l: Lookup)
      requires Answered(middle, after, l.identity, l.targetExists, l.now, l.outcome, l.copy)
      requires OneEach(middle) && Room(lib, middle, budget, 0, 0)
      ensures var i := Find(middle, lib.key(l.identity));
              || after == middle
              || (i < |middle| && after == Without(middle, i) && !Intact(middle[i].entry, l.identity))
              || (i < |middle| && after == middle[i := middle[i].(entry := middle[i].entry.(mtime := l.now))])
      ensures OneEach(after) && Room(lib, after, budget, 0, 0)
    {
      var i := Find(middle, lib.key(l.identity));
      hide OneEach, Total, EntrySize, Without, Usable, Intact;
      if i < |middle| {
        Touched(lib, middle, i, l.now);
        TotalWithout(lib, middle, i);
        WithoutOneEach(middle, i);
        WithoutOthers(middle, i);
        TouchedOneEach(middle, i, l.now);
      }
    }

    lemma WithoutKeepsSlot(middle: seq<Slot>, i: nat, k: nat, identity: Identity, content: seq<byte>, since: int)
      requires i < |middle| && i != k && HoldingAt(middle, k, identity, content, since)
      ensures exists j :: HoldingAt(Without(middle, i), j, identity, content, since)
    {
      var j := if k < i then k else k - 1;
      assert Without(middle, i)[j] == middle[k];
      hide Without;
      assert HoldingAt(Without(middle, i), j, identity, content, since);
    }

    lemma TouchKeepsSlot(middle: seq<Slot>, i: nat, k: nat, identity: Identity, content: seq<byte>, since: int, now: int)
      requires i < |middle| && HoldingAt(middle, k, identity, content, since) && now >= since
      ensures HoldingAt(middle[i := middle[i].(entry := middle[i].entry.(mtime := now))], k, identity, content, since)
    {
    }

    /** What was published comes back: through any looks for any identities within the time to live, each
        look for this one gives exactly the published bytes, unless the file grew while it was copied or
        another identity has the same key. */
    lemma {:induction false} PublishedComesBack(before: seq<Slot>, states: seq<seq<Slot>>, looks: seq<Lookup>,
                                                identity: Identity, size: nat, content: seq<byte>, now: int)
      requires |states| == |looks| + 1 && forall i :: 0 <= i < |looks| ==> Looked(states[i], states[i + 1], looks[i])
      requires Published(before, states[0], identity, size, content, now) && OneEach(states[0]) && |content| <= size
      requires forall i :: 0 <= i < |looks| ==> now <= looks[i].now && looks[i].now - now < ttl
      requires forall i :: 0 <= i < |looks| && lib.key(looks[i].identity) == lib.key(identity) ==> looks[i].identity == identity
      ensures forall i :: 0 <= i < |looks| && looks[i].identity == identity && !looks[i].targetExists ==>
                looks[i].outcome == Restored && looks[i].copy == Some(content)
      ensures Holding(states[|looks|], identity, content, now)
    {
      hide Published, Looked, Holding, OneEach, Admissible;
      PublishedHolds(before, states[0], identity, size, content, now);
      if looks != [] {
        var n := |looks| - 1;
        PublishedComesBack(before, states[..|looks|], looks[..n], identity, size, content, now);
        assert states[..|looks|][n] == states[n];
        HoldingStays(states[n], states[n + 1], identity, content, now, looks[n]);
        forall i | 0 <= i < |looks| && looks[i].identity == identity && !looks[i].targetExists
          ensures looks[i].outcome == Restored && looks[i].copy == Some(content)
        {
          if i < n {
            assert looks[..n][i] == looks[i];
          }
        }
      }
    }

    lemma PublishedHolds(before: seq<Slot>, after: seq<Slot>, identity: Identity, size: nat, content: seq<byte>, now: int)
      requires Published(before, after, identity, size, content, now) && |content| <= size && OneEach(after)
      ensures Holding(after, identity, content, now) && Admissible(identity, content)
    {
      PublishedFits(before, after, identity, size, content, now);
      hide Reserved, Room, OneEach;
      var i :| 0 <= i < |after| && after[i] == NewEntry(identity, content, now);
      assert HoldingAt(after, i, identity, content, now);
    }

    /** A live entry is found again when everything fits. */
    lemma PublishedStays(after: seq<Slot>, slot: Slot, later: int, middle: seq<Slot>)
      requires Room(lib, after, budget, 0, 0) && slot in after && OneEach(after) && later - slot.entry.mtime < ttl
      requires Surveyed(after, middle, later)
      ensures Find(middle, slot.key) < |middle| && middle[Find(middle, slot.key)] == slot
    {
      LiveIsLess(lib, after, later, ttl);
      LiveMember(after, later, ttl, slot);
      hide Leaves, Total, Live;
      assert middle == Live(after, later, ttl);
      var i := Find(middle, slot.key);
      var k :| 0 <= k < |middle| && middle[k] == slot;
      LiveMember(after, later, ttl, middle[i]);
      SameKey(after, middle[i], slot);
    }

    lemma PublishedFits(before: seq<Slot>, after: seq<Slot>, identity: Identity, size: nat, content: seq<byte>, now: int)
      requires Published(before, after, identity, size, content, now) && |content| <= size
      ensures Room(lib, after, budget, 0, 0) && NewEntry(identity, content, now) in after
    {
      hide Leaves, Surveyed, Except, Total;
      var slot := NewEntry(identity, content, now);
      var kept :| Reserved(before, kept, lib.key(identity), size, now) && after == kept + [slot];
      var middle :| Surveyed(before, middle, now)
                    && Leaves(lib, Except(middle, lib.key(identity)), kept, budget, size + MANIFEST_LIMIT, 1);
      TotalOfNothing(lib);
      LeavesRoom(lib, Except(middle, lib.key(identity)), kept, budget, size + MANIFEST_LIMIT, 1);
      TotalAppend(lib, kept, slot);
      assert after[|kept|] == slot;
    }
  }

  lemma {:induction false} LiveOneEach(slots: seq<Slot>, now: int, ttl: int)
    requires OneEach(slots)
    ensures OneEach(Live(slots, now, ttl))
  {
    if slots != [] {
      LiveOneEach(slots[1..], now, ttl);
      var rest := Live(slots[1..], now, ttl);
      forall j | 0 <= j < |rest| ensures rest[j].key != slots[0].key {
        LiveMember(slots[1..], now, ttl, rest[j]);
        var k :| 0 <= k < |slots[1..]| && slots[1..][k] == rest[j];
        assert slots[k + 1] == rest[j];
      }
    }
  }

  lemma WithoutOneEach(slots: seq<Slot>, i: nat)
    requires OneEach(slots) && i < |slots|
    ensures OneEach(Without(slots, i))
  {
  }

  lemma TouchedOneEach(slots: seq<Slot>, i: nat, now: int)
    requires OneEach(slots) && i < |slots|
    ensures OneEach(slots[i := slots[i].(entry := slots[i].entry.(mtime := now))])
  {
  }

  lemma SameKey(slots: seq<Slot>, a: Slot, b: Slot)
    requires OneEach(slots) && a in slots && b in slots && a.key == b.key
    ensures a == b
  {
  }

  /** Using an entry changes neither its files nor its size. */
  lemma Touched(lib: Library, slots: seq<Slot>, i: nat, now: int)
    requires i < |slots|
    ensures var after := slots[i := slots[i].(entry := slots[i].entry.(mtime := now))];
            && Total(lib, after) == Total(lib, slots)
            && (OneEach(slots) && AllHonest(lib, slots) ==> OneEach(after) && AllHonest(lib, after))
  {
    hide Total;
    TotalUpdate(lib, slots, i, slots[i].(entry := slots[i].entry.(mtime := now)));
  }

  lemma NoKeyLeft(slots: seq<Slot>, key: Key)
    requires OneEach(slots)
    ensures key !in Keys(Except(slots, key))
  {
    hide Find;
  }

  lemma WithoutUpdated(before: seq<Slot>, after: seq<Slot>, i: nat)
    requires i < |before| && |after| == |before| && after == before[i := after[i]]
    ensures Without(after, i) == Without(before, i)
  {
  }

  lemma WithoutOthers(slots: seq<Slot>, i: nat)
    requires i < |slots|
    ensures |Without(slots, i)| == |slots| - 1
    ensures forall k :: 0 <= k < i ==> Without(slots, i)[k] == slots[k]
    ensures forall slot :: slot in slots && slot != slots[i] ==> slot in Without(slots, i)
  {
    assert slots == slots[..i] + [slots[i]] + slots[i + 1..];
  }

  lemma TotalOfNothing(lib: Library)
    ensures Total(lib, []) == 0
  {
  }

  lemma LeavesRoom(lib: Library, before: seq<Slot>, after: seq<Slot>, budget: nat, size: nat, more: nat)
    requires Leaves(lib, before, after, budget, size, more) && size <= budget && more <= MAX_ENTRIES
    ensures Room(lib, after, budget, size, more)
  {
    hide Leaving;
  }
}
