/**
  The file table of the shared mapping: 2^19 slots, probed linearly from a hash
  of (device, inode). `Recorded` is the finite map the table stands for, and the
  methods below agree with it.
 */
module FileTable {
  import opened Types
  import opened Probing
  import Bits

  const SLOTS: nat := 524288

  /** XOR of two 64-bit words. */
  function Xor64(a: uint64, b: uint64): uint64 {
    Bits.WordPowers();
    Bits.XorBound(a, b, 64);
    Bits.Xor(a, b)
  }

  function Times64(a: uint64, b: uint64): uint64 {
    (a * b) % 0x1_0000_0000_0000_0000
  }

  function Hash(device: uint64, inode: uint64): (home: nat)
    ensures home < SLOTS
  {
    var mixed := Xor64(inode, Times64(device, 0x9e37_79b9_7f4a_7c15));
    var folded := Xor64(mixed, mixed / 0x4000_0000);
    var spread := Times64(folded, 0xbf58_476d_1ce4_e5b9);
    Xor64(spread, spread / 0x800_0000) % SLOTS
  }

  ghost const HOME: Key -> nat := (k: Key) => Hash(k.device, k.inode)

  type Cell = Slot<Key, FileOwner>
  type Owners = map<Key, FileOwner>

  function View(files: seq<FileOwner>): (cells: seq<Cell>)
    ensures |cells| == |files|
  {
    seq(|files|, i requires 0 <= i < |files| =>
      if files[i].inode == 0 then Vacant else Live(files[i].Id(), files[i]))
  }

  ghost predicate Valid(files: seq<FileOwner>) {
    && |files| == SLOTS
    && WellFormed(View(files), HOME)
    && forall i | 0 <= i < SLOTS && files[i].inode == 0 :: files[i] == EMPTY_OWNER
  }

  ghost function Recorded(files: seq<FileOwner>): Owners
    requires Valid(files)
  {
    Probing.Contents(View(files))
  }

  /** What the table answers for a key: its entry, or the empty record. */
  function EntryFor(m: Owners, key: Key): FileOwner {
    if key in m then m[key] else EMPTY_OWNER
  }

  /** Every entry is filed under its own identity, and no identity has inode 0. */
  ghost predicate Filed(m: Owners) {
    forall k | k in m :: m[k].Id() == k && k.inode != 0
  }

  predicate Fits(m: Owners, key: Key) {
    key in m || |m.Keys| < SLOTS
  }

  function Stored(m: Owners, owner: FileOwner): Owners {
    m[owner.Id() := owner]
  }

  lemma ContentsFiled(files: seq<FileOwner>)
    requires Valid(files)
    ensures Filed(Recorded(files)) && |Recorded(files).Keys| <= SLOTS
  {
    FullMeansNoFreeSlot(View(files));
  }

  function Next(index: nat): nat
    requires index < SLOTS
    ensures Next(index) < SLOTS
  {
    (index + 1) % SLOTS
  }

  /** The slot at which both the pre-scan of SetLocked and the probe of Put stop. */
  ghost function StopAt(files: seq<FileOwner>, key: Key): nat
    requires |files| == SLOTS
  {
    Stop(View(files), HOME(key), key, 0)
  }

  /** A probe runs out exactly when every slot is taken by another key. */
  lemma ProbeRunsOut(files: seq<FileOwner>, key: Key)
    requires Valid(files)
    ensures StopAt(files, key) == SLOTS
        <==> forall i | 0 <= i < SLOTS :: files[i].inode != 0 && files[i].Id() != key
  {
    hide Hash;
    var cells := View(files);
    ProbeExhausts(cells, HOME, key);
    assert forall i | 0 <= i < SLOTS ::
        !Stops(cells[i], key) <==> files[i].inode != 0 && files[i].Id() != key;
  }

  /**
    What a stopped probe means for the map: it runs out exactly when the key does not fit, and
    otherwise the slot it stops at reads as the key's entry.
   */
  lemma StoppedProbe(files: seq<FileOwner>, key: Key)
    requires Valid(files)
    ensures StopAt(files, key) < SLOTS <==> Fits(Recorded(files), key)
    ensures StopAt(files, key) < SLOTS ==>
              files[At(HOME(key), StopAt(files, key), SLOTS)] == EntryFor(Recorded(files), key)
  {
    hide Hash;
    var cells, s := View(files), StopAt(files, key);
    ProbeFinds(cells, HOME, key);
    FullMeansNoFreeSlot(cells);
    if s < SLOTS {
      assert Stops(cells[At(HOME(key), s, SLOTS)], key);
    } else {
      ProbeRunsOut(files, key);
      assert forall i | 0 <= i < SLOTS :: cells[i].Live?;
    }
  }

  /** Writing the owner into the slot where its probe stops is the map update. */
  lemma WritingStores(files: seq<FileOwner>, owner: FileOwner)
    requires Valid(files) && owner.inode != 0 && StopAt(files, owner.Id()) < SLOTS
    ensures var after := files[At(HOME(owner.Id()), StopAt(files, owner.Id()), SLOTS) := owner];
            Valid(after) && Recorded(after) == Stored(Recorded(files), owner)
  {
    hide Hash;
    var key := owner.Id();
    var cells, s := View(files), StopAt(files, key);
    var p := At(HOME(key), s, SLOTS);
    assert Stops(cells[p], key);
    forall i | 0 <= i < SLOTS && cells[i].Live? && cells[i].key == key ensures i == p {
      var d := Distance(HOME(key), i, SLOTS);
      assert Stops(cells[At(HOME(key), d, SLOTS)], key);
      assert s <= d;
    }
    StoreUpdates(cells, HOME, key, owner, s);
    assert View(files[p := owner]) == cells[p := Live(key, owner)];
  }

  lemma EmptyTable(files: seq<FileOwner>)
    requires |files| == SLOTS && forall i | 0 <= i < SLOTS :: files[i] == EMPTY_OWNER
    ensures Valid(files) && Recorded(files) == map[]
  {
  }

  /** The map after storing `owners` one by one; None once one of them does not fit or has no inode. */
  function StoredAll(m: Owners, owners: seq<FileOwner>): Option<Owners>
    decreases |owners|
  {
    if owners == [] then Some(m)
    else if owners[0].inode == 0 || !Fits(m, owners[0].Id()) then None
    else StoredAll(Stored(m, owners[0]), owners[1..])
  }

  /** The unbounded map that a list of owners describes: later entries win. */
  function Fold(m: Owners, owners: seq<FileOwner>): Owners
    decreases |owners|
  {
    if owners == [] then m else Fold(Stored(m, owners[0]), owners[1..])
  }

  lemma SubsetSize<T>(a: set<T>, b: set<T>)
    requires a <= b
    ensures |a| <= |b|
  {
    assert b == a + (b - a);
  }

  lemma {:induction false} FoldKeeps(m: Owners, owners: seq<FileOwner>)
    ensures m.Keys <= Fold(m, owners).Keys
    decreases |owners|
  {
    if owners != [] { FoldKeeps(Stored(m, owners[0]), owners[1..]); }
  }

  /**
    A list of owners is refused exactly when one of them has no inode or they bring more distinct
    keys than there are slots; otherwise the table ends up holding the map they describe.
   */
  lemma {:induction false} StoredAllExactly(m: Owners, owners: seq<FileOwner>)
    requires |m.Keys| <= SLOTS
    ensures StoredAll(m, owners) ==
            if (forall o | o in owners :: o.inode != 0) && |Fold(m, owners).Keys| <= SLOTS
            then Some(Fold(m, owners)) else None
    decreases |owners|
  {
    if owners != [] {
      var o, after := owners[0], Stored(m, owners[0]);
      assert after.Keys == m.Keys + {o.Id()};
      FoldKeeps(after, owners[1..]);
      SubsetSize(after.Keys, Fold(m, owners).Keys);
      assert forall q | q in owners :: q == o || q in owners[1..];
      if o.inode != 0 && Fits(m, o.Id()) { StoredAllExactly(after, owners[1..]); }
    }
  }

  /** The part of the shared mapping that file lookups use. */
  /** From the store number `mark` on, the version has been odd, and nothing but the slot at `index` has changed. */
  ghost predicate UnderOdd(stores: seq<(nat, seq<FileOwner>)>, before: seq<FileOwner>, index: nat, mark: nat)
    requires index < |before|
  {
    forall i | mark <= i < |stores| ::
      stores[i].0 % 2 == 1 && |stores[i].1| == |before| && stores[i].1 == before[index := stores[i].1[index]]
  }

  lemma NoStoreYet(stores: seq<(nat, seq<FileOwner>)>, before: seq<FileOwner>, index: nat)
    requires index < |before|
    ensures UnderOdd(stores, before, index, |stores|)
  {
  }

  /** A reader who finds the same even version again has seen one table. */
  ghost predicate Noticed(version: nat, files: seq<FileOwner>, now: nat, after: seq<FileOwner>) {
    version <= now && (version == now && version % 2 == 0 ==> after == files)
  }

  lemma NoticedFurther(version: nat, files: seq<FileOwner>, middle: nat, between: seq<FileOwner>, now: nat, after: seq<FileOwner>)
    requires Noticed(version, files, middle, between) && Noticed(middle, between, now, after)
    ensures Noticed(version, files, now, after)
  {
  }

  class Shared {
    var version: nat
    const files: array<FileOwner>
    // What readers may have seen since: version and slots after each store to a slot that is in use.
    ghost var stores: seq<(nat, seq<FileOwner>)>

    constructor ()
      ensures fresh(files) && version == 0 && Valid(files[..]) && Recorded(files[..]) == map[]
    {
      version, stores := 0, [];
      files := new FileOwner[SLOTS](_ => EMPTY_OWNER);
      new;
      EmptyTable(files[..]);
    }

    /** The shared memory as others have left it, with whatever version. */
    constructor Holding(contents: seq<FileOwner>)
      ensures fresh(files) && files[..] == contents
    {
      version := *;
      files := new FileOwner[|contents|](i requires 0 <= i < |contents| => contents[i]);
    }

    ghost method Note(before: seq<FileOwner>, index: nat, mark: nat)
      requires index < |before| && UnderOdd(stores, before, index, mark)
      requires version % 2 == 1 && index < files.Length && files[..] == before[index := files[index]]
      modifies this`stores
      ensures stores == old(stores) + [(version, files[..])] && UnderOdd(stores, before, index, mark)
    {
      stores := stores + [(version, files[..])];
    }

    /** Overwrites one slot field by field, with the version odd throughout. */
    method WriteSlot(index: nat, owner: FileOwner)
      requires index < files.Length
      modifies this, files
      ensures files[..] == old(files[..])[index := owner]
      ensures version == if old(version) % 2 == 0 then old(version) + 2 else old(version)
      ensures |stores| == |old(stores)| + 7 && UnderOdd(stores, old(files[..]), index, |old(stores)|)
    {
      hide UnderOdd;
      ghost var before, mark := files[..], |stores|;
      NoStoreYet(stores, before, index);
      var seen := version;
      if seen % 2 == 0 { version := seen + 1; }
      files[index] := files[index].(device := owner.device);
      Note(before, index, mark);
      files[index] := files[index].(inode := owner.inode);
      Note(before, index, mark);
      files[index] := files[index].(birthSeconds := owner.birthSeconds);
      Note(before, index, mark);
      files[index] := files[index].(birthNanoseconds := owner.birthNanoseconds);
      Note(before, index, mark);
      files[index] := files[index].(uid := owner.uid);
      Note(before, index, mark);
      files[index] := files[index].(gid := owner.gid);
      Note(before, index, mark);
      files[index] := files[index].(mode := owner.mode);
      Note(before, index, mark);
      if seen % 2 == 0 { version := seen + 2; }
    }

    /** Empties every slot, as recovery and the startup scan do before they rebuild the table. */
    method Wipe()
      requires files.Length == SLOTS
      modifies files
      ensures Valid(files[..]) && Recorded(files[..]) == map[]
    {
      for i := 0 to SLOTS
        invariant forall j | 0 <= j < i :: files[j] == EMPTY_OWNER
      {
        files[i] := EMPTY_OWNER;
      }
      EmptyTable(files[..]);
    }

    /** The probe loop of Put: the slot it settles on, or SLOTS when it runs out. */
    method Probe(owner: FileOwner) returns (index: nat)
      requires files.Length == SLOTS
      ensures var s := StopAt(files[..], owner.Id());
              index == if s < SLOTS then At(HOME(owner.Id()), s, SLOTS) else SLOTS
    {
      hide Hash;
      ghost var key, cells := owner.Id(), View(files[..]);
      index := Hash(owner.device, owner.inode);
      var count := 0;
      while count < SLOTS
        invariant count <= SLOTS && index < SLOTS
        invariant count < SLOTS ==> index == At(HOME(key), count, SLOTS)
        invariant StopAt(files[..], key) == Stop(cells, HOME(key), key, count)
      {
        var slot := files[index];
        if slot.inode == 0 || (slot.device == owner.device && slot.inode == owner.inode) {
          assert Stops(cells[index], key);
          return index;
        }
        assert cells[index] == Live(slot.Id(), slot);
        count, index := count + 1, Next(index);
      }
      return SLOTS;
    }

    method Put(owner: FileOwner) returns (ok: bool)
      requires Valid(files[..])
      modifies this, files
      ensures Valid(files[..])
      ensures ok <==> owner.inode != 0 && Fits(old(Recorded(files[..])), owner.Id())
      ensures ok ==> Recorded(files[..]) == Stored(old(Recorded(files[..])), owner)
      ensures !ok ==> files[..] == old(files[..]) && version == old(version)
      ensures ok ==> version == if old(version) % 2 == 0 then old(version) + 2 else old(version)
    {
      hide Hash;
      if owner.inode == 0 { return false; }
      var index := Probe(owner);
      StoppedProbe(files[..], owner.Id());
      if index == SLOTS { return false; }
      WritingStores(files[..], owner);
      WriteSlot(index, owner);
      return true;
    }

    /** The body of Lookup between its two reads of an even, unchanged version. */
    method Lookup(device: uint64, inode: uint64) returns (owner: Option<FileOwner>)
      requires Valid(files[..])
      ensures owner == var m, key := Recorded(files[..]), Key(device, inode);
                       if key in m then Some(m[key]) else None
    {
      hide Hash;
      ghost var key, cells := Key(device, inode), View(files[..]);
      ProbeFinds(cells, HOME, key);
      var index, n := Hash(device, inode), 0;
      while n < SLOTS
        invariant n <= SLOTS && index < SLOTS
        invariant n < SLOTS ==> index == At(HOME(key), n, SLOTS)
        invariant StopAt(files[..], key) == Stop(cells, HOME(key), key, n)
      {
        var slot := files[index];
        if slot.inode == 0 {
          assert Stops(cells[index], key);
          return None;
        }
        if slot.device == device && slot.inode == inode {
          assert Stops(cells[index], key);
          return Some(slot);
        }
        n, index := n + 1, Next(index);
      }
      return None;
    }

    /** Stores a list of owners, as the startup scan and recovery do. */
    method PutAll(owners: seq<FileOwner>) returns (ok: bool)
      requires Valid(files[..])
      modifies this, files
      ensures Valid(files[..])
      ensures ok <==> StoredAll(old(Recorded(files[..])), owners).Some?
      ensures ok ==> Recorded(files[..]) == StoredAll(old(Recorded(files[..])), owners).value
    {
      var i := 0;
      while i < |owners|
        invariant 0 <= i <= |owners| && Valid(files[..])
        invariant StoredAll(old(Recorded(files[..])), owners) == StoredAll(Recorded(files[..]), owners[i..])
      {
        assert owners[i..][1..] == owners[i + 1..];
        ok := Put(owners[i]);
        if !ok { return false; }
        i := i + 1;
      }
      return true;
    }
  }
}
