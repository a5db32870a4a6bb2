/**
  The permission layer: which virtual chown, chmod, open and create calls are allowed,
  and what they do to the recorded owners. Files are given by what stat reports of
  them; a file without a record is imported with that.
 */
module FilePolicy {
  import opened Types
  import opened FileTable
  import opened Import
  import opened Bits

  const R_OK: nat := 4
  const W_OK: nat := 2
  const X_OK: nat := 1

  const EPERM: int := 1
  const ENOENT: int := 2
  const EIO: int := 5
  const EACCES: int := 13
  const EEXIST: int := 17
  const ENOTDIR: int := 20
  const EINVAL: int := 22
  const EOPNOTSUPP: int := 95

  datatype Caller = Caller(uid: uint32, gid: uint32, groups: seq<uint32>, umask: nat)

  // ----- Mode bits

  /** `bits & ~mask` */
  function Without(bits: nat, mask: nat): (r: nat)
    ensures r <= bits
  {
    if bits == 0 then 0
    else 2 * Without(bits / 2, mask / 2) + (if mask % 2 == 0 then bits % 2 else 0)
  }

  /** Bit `k` of a word. */
  predicate Bit(word: nat, k: nat) { if k == 0 then word % 2 == 1 else Bit(word / 2, k - 1) }

  /** A bit survives exactly when it was asked for and is not masked. */
  lemma {:induction false} WithoutBit(bits: nat, mask: nat, k: nat)
    ensures Bit(Without(bits, mask), k) <==> Bit(bits, k) && !Bit(mask, k)
  {
    if k > 0 {
      WithoutBit(bits / 2, mask / 2, k - 1);
      assert Without(bits, mask) / 2 == Without(bits / 2, mask / 2);
    }
  }

  lemma {:induction false} PowerBit(n: nat, k: nat)
    ensures Bit(Pow2(n), k) <==> k == n
  {
    if n > 0 && k > 0 { PowerBit(n - 1, k - 1); }
    if n == 0 && k > 0 { ZeroBit(k - 1); }
  }

  lemma {:induction false} ZeroBit(k: nat)
    ensures !Bit(0, k)
  {
    if k > 0 { ZeroBit(k - 1); }
  }

  /** `0x8000 + bits` and the like: what is added above bit `n` does not show below it. */
  lemma {:induction false} AddHigh(low: nat, high: nat, n: nat, k: nat)
    requires k < n
    ensures Bit(low + high * Pow2(n), k) <==> Bit(low, k)
  {
    var p := high * Pow2(n - 1);
    assert high * Pow2(n) == 2 * p;
    assert (low + 2 * p) / 2 == low / 2 + p;
    if k > 0 { AddHigh(low / 2, high, n - 1, k - 1); }
  }

  lemma {:induction false} WithoutTwice(bits: nat, mask: nat)
    ensures Without(Without(bits, mask), mask) == Without(bits, mask)
  {
    if bits != 0 {
      WithoutTwice(bits / 2, mask / 2);
      assert Without(bits, mask) / 2 == Without(bits / 2, mask / 2);
    }
  }

  // ----- The bits that the host process needs

  /** A three-bit group whose value is known, and what is above and below it. */
  lemma Groups(high: nat, middle: nat, low: nat, k: nat)
    requires middle < 8 && low < 64
    ensures var word := high * 512 + middle * 64 + low;
            Bit(word, k) <==> if k < 6 then Bit(low, k) else if k < 9 then Bit(middle, k - 6) else Bit(high, k - 9)
  {
    hide Bit;
    var word := high * 512 + middle * 64 + low;
    assert Pow2(6) == 64 && Pow2(3) == 8;
    if k < 6 {
      AddHigh(low, high * 8 + middle, 6, k);
    } else if k < 9 {
      BitSix(word, k - 6);
      assert word / 64 == middle + high * 8;
      AddHigh(middle, high, 3, k - 6);
    } else {
      BitNine(word, k - 9);
      assert word / 512 == high;
    }
  }

  lemma WidenedParts(host: Mode, bits: Mode)
    ensures var b, w := bits % 0x1000, Widened(host, bits);
            && PermBits(bits) == b == b / 512 * 512 + b / 64 % 8 * 64 + b % 64
            && w % 0x1000 == b / 512 * 512 + (if IsDirectory(bits) then 7 else 6 + b / 64 % 8 % 2) * 64 + b % 64
  {
    var b := PermBits(bits);
    OrParts(b);
    var low := if IsDirectory(bits) then Or700(b) else Or600(b);
    Parts(Kind(host), low);
    hide *;
    hide Or700, Or600;
  }

  lemma OrParts(b: nat)
    requires b < 0x1000
    ensures b == b / 512 * 512 + b / 64 % 8 * 64 + b % 64
    ensures Or700(b) == b / 512 * 512 + 7 * 64 + b % 64
    ensures Or600(b) == b / 512 * 512 + (6 + b / 64 % 8 % 2) * 64 + b % 64
  {
    assert b / 64 / 8 == b / 512;
    var high, middle, low := b / 512, b / 64 % 8, b % 64;
    assert b / 64 == 8 * high + middle;
    hide *;
    hide Or700, Or600;
    assert b % 128 == middle % 2 * 64 + low by {
      assert b == 128 * (4 * high + middle / 2) + (middle % 2 * 64 + low);
    }
    Octal(b);
  }

  lemma Octal(b: nat)
    requires b < 0x1000
    ensures Or700(b) == b / 512 * 512 + 448 + b % 64 && Or600(b) == b / 512 * 512 + 384 + b % 128
  {
  }

  /** Widening sets the owner's read and write bits, for a directory the search bit too, and no other bit changes. */
  lemma WidenedBits(host: Mode, bits: Mode, k: nat)
    requires k < 12
    ensures Bit(Widened(host, bits), k) <==> Bit(bits, k) || k == 7 || k == 8 || (k == 6 && IsDirectory(bits))
  {
    hide Bit, PermBits, Or700, Or600, Kind, Widened;
    var b, w := PermBits(bits), Widened(host, bits);
    WidenedParts(host, bits);
    LowBits(w, k);
    LowBits(bits, k);
    var high, middle, low := b / 512, b / 64 % 8, b % 64;
    var wide := if IsDirectory(bits) then 7 else 6 + middle % 2;
    Groups(high, middle, low, k);
    Groups(high, wide, low, k);
    LowThree(middle);
    LowThree(wide);
    if 6 <= k < 9 { assert k - 6 == 0 || k - 6 == 1 || k - 6 == 2; }
  }

  /** `mode & ~(S_ISUID | S_ISGID)` */
  function WithoutSetId(mode: Mode): Mode { Without(mode, 0xC00) }

  /** `mode & ~S_ISGID` */
  function WithoutSetGid(mode: Mode): Mode { Without(mode, 0x400) }

  predicate Sticky(mode: Mode) { Bit(mode, 9) }

  predicate SetGid(mode: Mode) { Bit(mode, 10) }

  predicate SetUid(mode: Mode) { Bit(mode, 11) }

  predicate AnyExecute(mode: Mode) { mode % 2 == 1 || mode / 8 % 2 == 1 || mode / 64 % 2 == 1 }

  /** `(bits & mask) == mask` for three-bit masks. */
  predicate Grants(bits: nat, mask: nat) {
    (mask % 2 == 1 ==> bits % 2 == 1) && (mask / 2 % 2 == 1 ==> bits / 2 % 2 == 1)
    && (mask / 4 % 2 == 1 ==> bits / 4 % 2 == 1)
  }

  function Cleared(o: FileOwner): FileOwner { o.(mode := WithoutSetId(o.mode)) }

  lemma ClearedTwice(o: FileOwner)
    ensures Cleared(Cleared(o)) == Cleared(o) && !SetUid(Cleared(o).mode) && !SetGid(Cleared(o).mode)
  {
    WithoutTwice(o.mode, 0xC00);
    WithoutBit(o.mode, 0xC00, 10);
    WithoutBit(o.mode, 0xC00, 11);
    assert Bit(0xC00, 10) && Bit(0xC00, 11) by {
      assert Bit(0xC00 / 1024, 0) && Bit(0xC00 / 1024, 1);
    }
  }

  // ----- Decisions

  predicate InGroup(c: Caller, gid: uint32) { c.gid == gid || gid in c.groups }

  predicate Allowed(o: FileOwner, c: Caller, mask: nat) {
    if c.uid == 0 then mask % 2 == 0 || IsDirectory(o.mode) || AnyExecute(o.mode)
    else Grants(if c.uid == o.uid then o.mode / 64 else if InGroup(c, o.gid) then o.mode / 8 else o.mode, mask)
  }

  /** The sticky rule for removing or renaming `target` in `parent`. */
  predicate StickyForbids(parent: FileOwner, target: FileOwner, c: Caller) {
    Sticky(parent.mode) && c.uid != 0 && c.uid != parent.uid && c.uid != target.uid
  }

  predicate MayChown(o: FileOwner, c: Caller, uid: uint32, gid: uint32) {
    c.uid == 0 ||
    (c.uid == o.uid && (uid == UINT32_MAX || uid == o.uid) && (gid == UINT32_MAX || gid == o.gid || InGroup(c, gid)))
  }

  function Chowned(o: FileOwner, uid: uint32, gid: uint32): FileOwner {
    var named := o.(uid := if uid != UINT32_MAX then uid else o.uid, gid := if gid != UINT32_MAX then gid else o.gid);
    if !IsDirectory(o.mode) && (uid != UINT32_MAX || gid != UINT32_MAX) then Cleared(named) else named
  }

  function Chmodded(o: FileOwner, c: Caller, mode: Mode): FileOwner {
    var bits := PermBits(mode);
    var kept := if c.uid != 0 && !InGroup(c, o.gid) then WithoutSetGid(bits) else bits;
    o.(mode := Kind(o.mode) % 16 * 0x1000 + kept)
  }

  // ----- What the decisions come to

  /** The bit of a mode that decides on read (k == 2), write (1) or execute and search (0): the owner's, the group's or the others'. */
  function Deciding(o: FileOwner, c: Caller, k: nat): nat {
    if c.uid == o.uid then k + 6 else if c.gid == o.gid || o.gid in c.groups then k + 3 else k
  }

  /** Bit `k` of a word shifted right by three, and by multiples of three. */
  lemma BitThree(word: nat, k: nat)
    ensures Bit(word, k + 3) <==> Bit(word / 8, k)
  {
    assert Bit(word, k + 3) == Bit(word / 2, k + 2) == Bit(word / 2 / 2, k + 1) == Bit(word / 2 / 2 / 2, k);
    assert word / 2 / 2 / 2 == word / 8;
  }

  lemma BitSix(word: nat, k: nat)
    ensures Bit(word, k + 6) <==> Bit(word / 64, k)
  {
    BitThree(word, k + 3);
    BitThree(word / 8, k);
    assert word / 8 / 8 == word / 64;
  }

  lemma BitNine(word: nat, k: nat)
    ensures Bit(word, k + 9) <==> Bit(word / 512, k)
  {
    BitSix(word, k + 3);
    BitThree(word / 64, k);
    assert word / 64 / 8 == word / 512;
  }

  lemma LowThree(w: nat)
    ensures (Bit(w, 0) <==> w % 2 == 1) && (Bit(w, 1) <==> w / 2 % 2 == 1) && (Bit(w, 2) <==> w / 4 % 2 == 1)
  {
    assert Bit(w, 1) == Bit(w / 2, 0) && Bit(w, 2) == Bit(w / 2, 1) == Bit(w / 2 / 2, 0) && w / 2 / 2 == w / 4;
  }

  /** `bits & mask == mask`, bit by bit. */
  lemma GrantsEach(bits: nat, mask: nat)
    requires mask < 8
    ensures Grants(bits, mask) <==> forall k | 0 <= k < 3 && Bit(mask, k) :: Bit(bits, k)
  {
    LowThree(bits);
    LowThree(mask);
    hide Bit;
    if Grants(bits, mask) {
      forall k | 0 <= k < 3 && Bit(mask, k) ensures Bit(bits, k) {
        assert k == 0 || k == 1 || k == 2;
      }
    }
  }

  /** A caller other than root is granted just what the bits of its class say: of the owner, of the group or of all others. */
  lemma OthersByClass(o: FileOwner, c: Caller, mask: nat)
    requires c.uid != 0 && mask < 8
    ensures Allowed(o, c, mask) <==> forall k | 0 <= k < 3 && Bit(mask, k) :: Bit(o.mode, Deciding(o, c, k))
  {
    hide Grants, Bit;
    var bits := if c.uid == o.uid then o.mode / 64 else if c.gid == o.gid || o.gid in c.groups then o.mode / 8 else o.mode;
    GrantsEach(bits, mask);
    forall k | 0 <= k < 3 ensures Bit(o.mode, Deciding(o, c, k)) <==> Bit(bits, k) {
      BitSix(o.mode, k);
      BitThree(o.mode, k);
    }
  }

  /** Root may read and write anything, search any directory, and execute what somebody may execute. */
  lemma RootByExecute(o: FileOwner, c: Caller, mask: nat)
    requires c.uid == 0
    ensures Allowed(o, c, mask) <==>
              (Bit(mask, 0) ==> Kind(o.mode) % 16 == 4 || Bit(o.mode, 0) || Bit(o.mode, 3) || Bit(o.mode, 6))
  {
    BitThree(o.mode, 0);
    BitSix(o.mode, 0);
  }

  /** Where a mode says nothing about others, strangers get nothing, and root's private file is nobody else's. */
  lemma StrangersRefused(o: FileOwner, c: Caller, mask: nat)
    requires c.uid != 0 && c.uid != o.uid && c.gid != o.gid && o.gid !in c.groups
    requires o.mode % 8 == 0 && 0 < mask < 8
    ensures !Allowed(o, c, mask)
  {
  }

  lemma PrivateFile(c: Caller)
    requires c.uid == 1000 && c.gid == 1000 && c.groups == []
    ensures !Allowed(FileOwner(1, 2, 0, 0, 0, 0, 0x8180), c, R_OK)
    ensures Allowed(FileOwner(1, 2, 0, 0, 1000, 1000, 0x8180), c, R_OK + W_OK)
    ensures !Allowed(FileOwner(1, 2, 0, 0, 1000, 1000, 0x8024), c, R_OK)
    ensures Allowed(FileOwner(1, 2, 0, 0, 0, 1000, 0x8020), c, R_OK) && !Allowed(FileOwner(1, 2, 0, 0, 0, 1000, 0x8004), c, R_OK)
  {
  }

  /** In a sticky directory (01000), entries are root's, the directory owner's and their owner's to remove. */
  lemma StickyExactly(parent: FileOwner, target: FileOwner, c: Caller)
    ensures StickyForbids(parent, target, c) <==>
              parent.mode / 512 % 2 == 1 && c.uid !in {0, parent.uid, target.uid}
  {
    BitNine(parent.mode, 0);
  }

  /** chown is refused just to a caller other than root that does not own the file, would give it away, or names a group not its own. */
  lemma ChownRefusedExactly(o: FileOwner, c: Caller, uid: uint32, gid: uint32)
    ensures !MayChown(o, c, uid, gid) <==>
              c.uid != 0 && (c.uid != o.uid || uid !in {UINT32_MAX, o.uid}
                             || (gid !in {UINT32_MAX, o.gid, c.gid} && gid !in c.groups))
  {
  }

  /** chown sets what it is asked to set; it ends the set-id bits of what is no directory, and touches nothing else. */
  lemma ChownSets(o: FileOwner, uid: uint32, gid: uint32)
    ensures var n := Chowned(o, uid, gid);
            && n == o.(uid := n.uid, gid := n.gid, mode := n.mode)
            && n.uid == (if uid == UINT32_MAX then o.uid else uid) && n.gid == (if gid == UINT32_MAX then o.gid else gid)
            && (if Kind(o.mode) % 16 == 4 || (uid == UINT32_MAX && gid == UINT32_MAX) then n.mode == o.mode
                else forall k :: Bit(n.mode, k) <==> Bit(o.mode, k) && k != 10 && k != 11)
  {
    SetIdBits(o.mode);
  }

  /** Clearing the set-id bits clears bits 11 and 10, and no other. */
  lemma SetIdBits(mode: Mode)
    ensures forall k :: Bit(WithoutSetId(mode), k) <==> Bit(mode, k) && k != 10 && k != 11
  {
    forall k ensures Bit(WithoutSetId(mode), k) <==> Bit(mode, k) && k != 10 && k != 11 {
      WithoutBit(mode, 0xC00, k);
      TwoBits(k);
    }
  }

  lemma TwoBits(k: nat)
    ensures Bit(0xC00, k) <==> k == 10 || k == 11
  {
    assert Pow2(10) == 0x400 by { Pow2Sum(8, 2); }
    if k >= 10 {
      BitNine(0xC00, k - 9);
      assert 0xC00 / 512 == 6 && Bit(6, k - 9) == Bit(3, k - 10);
      if k >= 12 {
        assert Bit(3, k - 10) == Bit(1, k - 11) == Bit(0, k - 12);
        ZeroBit(k - 12);
      }
    } else {
      AddHigh(0, 3, 10, k);
      ZeroBit(k);
    }
  }

  // ----- Integrity

  /**
    What one caller may do to the records of files that exist: none changes its uid, and one of
    somebody else's changes at most by losing its set-id bits.
   */
  ghost predicate Respects(uid: uint32, live: set<Key>, before: Owners, after: Owners) {
    forall k | k in live && k in before ::
      && k in after && after[k].uid == before[k].uid
      && (before[k].uid != uid ==> after[k] == before[k] || after[k] == Cleared(before[k]))
  }

  ghost predicate Indexed(entries: Owners) {
    forall k | k in entries :: entries[k].Id() == k
  }

  /** What stat reports of each file while a call is served. */
  type Stats = s: Key -> FileOwner | forall k :: s(k).Id() == k
    witness (k: Key) => FileOwner(k.device, k.inode, 0, 0, 0, 0, 0)

  /** The record a call works with: the one kept, or the one imported. */
  function RecordOf(stat: Stats, entries: Owners, k: Key): FileOwner {
    if k in entries then entries[k] else stat(k)
  }

  /** Only records of files that had none have been added, as stat reports them. */
  ghost predicate OnlyImports(stat: Stats, before: Owners, after: Owners) {
    && Indexed(after)
    && (forall k | k in before :: k in after && after[k] == before[k])
    && (forall k | k in after && k !in before :: after[k] == stat(k))
  }

  /** A change to a record that its maker is entitled to, after any imports. */
  lemma ChangeRespects(uid: uint32, live: set<Key>, stat: Stats, before: Owners, now: Owners, o: FileOwner, next: FileOwner)
    requires OnlyImports(stat, before, now) && o.Id() in now && now[o.Id()] == o
    requires next.Id() == o.Id() && next.uid == o.uid && (o.uid != uid ==> next == o || next == Cleared(o))
    ensures Respects(uid, live, before, now) && Respects(uid, live, before, now[next.Id() := next])
    ensures Indexed(now[next.Id() := next])
  {
  }

  /** A record for a file that did not exist before. */
  lemma CreationRespects(uid: uint32, live: set<Key>, stat: Stats, before: Owners, now: Owners, next: FileOwner)
    requires OnlyImports(stat, before, now) && next.Id() !in live
    ensures Respects(uid, live, before, now) && Respects(uid, live, before, now[next.Id() := next])
    ensures Indexed(now[next.Id() := next])
  {
  }

  /** A stretch of time in which the files of `live` exist and the callers act one after the other. */
  ghost predicate Run(live: set<Key>, callers: seq<uint32>, states: seq<Owners>) {
    && |states| == |callers| + 1
    && forall i | 0 <= i < |callers| :: callers[i] != 0 && Respects(callers[i], live, states[i], states[i + 1])
  }

  /**
    Over any run of callers other than root, an existing file keeps its uid, and one that belongs to none
    of the callers changes at most by losing its set-id bits.
   */
  lemma {:induction false} OwnershipIntegrity(live: set<Key>, callers: seq<uint32>, states: seq<Owners>, k: Key)
    requires Run(live, callers, states) && k in live && k in states[0]
    ensures k in states[|callers|] && states[|callers|][k].uid == states[0][k].uid
    ensures states[0][k].uid !in callers ==>
              states[|callers|][k] == states[0][k] || states[|callers|][k] == Cleared(states[0][k])
  {
    if callers != [] {
      var n := |callers| - 1;
      OwnershipIntegrity(live, callers[..n], states[..n + 1], k);
      assert states[..n + 1][n] == states[n];
      ClearedTwice(states[0][k]);
      assert forall u | u in callers[..n] :: u in callers;
    }
  }

  // ----- New files

  /** What a created file is to be recorded with. */
  datatype Wanted = Wanted(uid: uint32, gid: uint32, mode: Mode) {
    function Of(file: FileOwner): FileOwner { file.(uid := uid, gid := gid, mode := mode) }
  }

  function GroupFor(parent: FileOwner, c: Caller): uint32 { if SetGid(parent.mode) then parent.gid else c.gid }

  /** A regular file made by open. */
  function NewFile(parent: FileOwner, c: Caller, mode: Mode): Wanted {
    var gid := GroupFor(parent, c);
    var bits := Without(PermBits(mode), c.umask);
    Wanted(c.uid, gid, 0x8000 + if c.uid != 0 && !InGroup(c, gid) then WithoutSetGid(bits) else bits)
  }

  datatype Making = Mkdir(mode: Mode) | Mknod(mode: Mode) | Symlink

  /** What mkdir, mknod and symlink record, or None for a node they refuse to make. */
  function NewNode(making: Making, parent: FileOwner, c: Caller): Option<Wanted> {
    var gid := GroupFor(parent, c);
    match making
    case Mkdir(mode) =>
      var bits := Without(mode, c.umask) % 0x1000;
      Some(Wanted(c.uid, gid, 0x4000 + if SetGid(parent.mode) && !SetGid(bits) then bits + 0x400 else bits))
    case Mknod(mode) =>
      var bare := Without(mode, c.umask);
      var kind := if Kind(bare) % 16 == 0 then bare + 0x8000 else bare;
      if Kind(kind) % 16 == 8 || Kind(kind) % 16 == 1 then Some(Wanted(c.uid, gid, kind)) else None
    case Symlink => Some(Wanted(c.uid, gid, 0xA1FF))
  }

  /**
    A file made by open is regular, belongs to its maker and to a group given by the directory or the maker,
    has none but the asked-for unmasked bits, and is set-gid only to a group of its maker's.
   */
  lemma NewFileEntitled(parent: FileOwner, c: Caller, mode: Mode)
    ensures var w := NewFile(parent, c, mode);
            && w.uid == c.uid && Kind(w.mode) == 8
            && w.gid == (if SetGid(parent.mode) then parent.gid else c.gid)
            && (c.uid != 0 && SetGid(w.mode) ==> InGroup(c, w.gid))
            && (forall k | 0 <= k < 12 && k != 10 ::
                  Bit(w.mode, k) <==> Bit(PermBits(mode), k) && !Bit(c.umask, k))
  {
    var asked := PermBits(mode);
    var bits := Without(asked, c.umask);
    var w := NewFile(parent, c, mode);
    var kept := w.mode - 0x8000;
    assert Pow2(12) == 0x1000 by { Pow2Sum(8, 4); }
    assert Pow2(10) == 0x400 by { Pow2Sum(8, 2); }
    assert kept == if c.uid != 0 && !InGroup(c, w.gid) then Without(bits, 0x400) else bits;
    forall k | 0 <= k < 12
      ensures Bit(w.mode, k) <==> Bit(kept, k)
      ensures k != 10 ==> (Bit(w.mode, k) <==> Bit(asked, k) && !Bit(c.umask, k))
    {
      AddHigh(kept, 8, 12, k);
      WithoutBit(asked, c.umask, k);
      WithoutBit(bits, 0x400, k);
      PowerBit(10, k);
    }
    WithoutBit(bits, 0x400, 10);
    PowerBit(10, 10);
  }

  /**
    A directory has the asked-for unmasked bits, and is set-gid also if its parent is; a node is a regular file or a FIFO
    with the unmasked mode; a link has all permissions. Each belongs to its maker and to a group given by directory or maker.
   */
  lemma NewNodeEntitled(making: Making, parent: FileOwner, c: Caller)
    ensures var w := NewNode(making, parent, c);
            w.Some? ==> w.value.uid == c.uid && w.value.gid == (if SetGid(parent.mode) then parent.gid else c.gid)
    ensures making.Mkdir? ==>
              var w := NewNode(making, parent, c);
              && w.Some? && Kind(w.value.mode) == 4
              && forall k | 0 <= k < 12 ::
                   Bit(w.value.mode, k) <==> (Bit(making.mode, k) && !Bit(c.umask, k)) || (k == 10 && SetGid(parent.mode))
    ensures making.Mknod? ==>
              var w, asked := NewNode(making, parent, c), Kind(Without(making.mode, c.umask)) % 16;
              && (w.Some? <==> asked in {0, 1, 8})
              && (w.Some? ==> Kind(w.value.mode) % 16 == (if asked == 1 then 1 else 8)
                              && forall k | 0 <= k < 12 ::
                                   Bit(w.value.mode, k) <==> Bit(making.mode, k) && !Bit(c.umask, k))
    ensures making.Symlink? ==>
              var w := NewNode(making, parent, c); w.Some? && Kind(w.value.mode) == 10 && PermBits(w.value.mode) == 0x1FF
  {
    match making
    case Mkdir(mode) => NewDirectoryBits(mode, parent, c);
    case Mknod(mode) => NewFileBits(mode, parent, c);
    case Symlink =>
  }

  lemma LowBits(word: nat, k: nat)
    requires k < 12
    ensures Bit(word % 0x1000, k) <==> Bit(word, k)
  {
    assert Pow2(12) == 0x1000 by { Pow2Sum(8, 4); }
    AddHigh(word % 0x1000, word / 0x1000, 12, k);
  }

  /** Adding a bit that is clear sets it, and no other. */
  lemma {:induction false} AddBit(word: nat, n: nat, k: nat)
    requires !Bit(word, n)
    ensures Bit(word + Pow2(n), k) <==> Bit(word, k) || k == n
    decreases n
  {
    if n > 0 {
      assert (word + Pow2(n)) / 2 == word / 2 + Pow2(n - 1);
      if k > 0 { AddBit(word / 2, n - 1, k - 1); }
    }
  }

  lemma NewDirectoryBits(mode: Mode, parent: FileOwner, c: Caller)
    ensures var w := NewNode(Mkdir(mode), parent, c).value;
            && Kind(w.mode) == 4
            && forall k | 0 <= k < 12 ::
                 Bit(w.mode, k) <==> (Bit(mode, k) && !Bit(c.umask, k)) || (k == 10 && SetGid(parent.mode))
  {
    var bits := Without(mode, c.umask) % 0x1000;
    var w := NewNode(Mkdir(mode), parent, c).value;
    var kept := w.mode - 0x4000;
    assert Pow2(12) == 0x1000 by { Pow2Sum(8, 4); }
    assert Pow2(10) == 0x400 by { Pow2Sum(8, 2); }
    assert kept == if SetGid(parent.mode) && !SetGid(bits) then bits + Pow2(10) else bits;
    SumFits(bits);
    forall k | 0 <= k < 12
      ensures Bit(w.mode, k) <==> (Bit(mode, k) && !Bit(c.umask, k)) || (k == 10 && SetGid(parent.mode))
    {
      AddHigh(kept, 4, 12, k);
      LowBits(Without(mode, c.umask), k);
      WithoutBit(mode, c.umask, k);
      if SetGid(parent.mode) && !SetGid(bits) { AddBit(bits, 10, k); }
    }
  }

  /** A word of 12 bits whose bit 10 is clear has room for it. */
  lemma SumFits(bits: nat)
    requires bits < 0x1000
    ensures !SetGid(bits) ==> bits + 0x400 < 0x1000
  {
    BitNine(bits, 1);
    LowThree(bits / 512);
  }

  lemma RegularKind(bits: nat)
    ensures Kind(bits + 0x8000) == Kind(bits) + 8
  {
  }

  lemma NewFileBits(mode: Mode, parent: FileOwner, c: Caller)
    ensures var w, asked := NewNode(Mknod(mode), parent, c), Kind(Without(mode, c.umask)) % 16;
            && (w.Some? <==> asked in {0, 1, 8})
            && (w.Some? ==> Kind(w.value.mode) % 16 == (if asked == 1 then 1 else 8)
                            && forall k | 0 <= k < 12 :: Bit(w.value.mode, k) <==> Bit(mode, k) && !Bit(c.umask, k))
  {
    hide Without, Bit, SetGid;
    var bare := Without(mode, c.umask);
    var w := NewNode(Mknod(mode), parent, c);
    RegularKind(bare);
    hide Kind;
    assert Pow2(12) == 0x1000 by { Pow2Sum(8, 4); }
    if w.Some? {
      forall k | 0 <= k < 12 ensures Bit(w.value.mode, k) <==> Bit(mode, k) && !Bit(c.umask, k) {
        WithoutBit(mode, c.umask, k);
        if Kind(bare) % 16 == 0 { AddHigh(bare, 8, 12, k); }
      }
    }
  }

  // ----- Entitlements

  /** A caller other than root gives nothing away, joins only its own groups, and leaves no set-id file behind. */
  lemma ChownEntitled(o: FileOwner, c: Caller, uid: uint32, gid: uint32)
    requires MayChown(o, c, uid, gid)
    ensures var n := Chowned(o, uid, gid);
            && n.Id() == o.Id()
            && (uid != UINT32_MAX ==> n.uid == uid) && (gid != UINT32_MAX ==> n.gid == gid)
            && (c.uid != 0 ==> c.uid == o.uid == n.uid && (n.gid == o.gid || InGroup(c, n.gid)))
            && (!IsDirectory(o.mode) && (uid != UINT32_MAX || gid != UINT32_MAX) ==> !SetUid(n.mode) && !SetGid(n.mode))
  {
    ClearedTwice(o);
  }

  /** chmod keeps the owner and the kind, and makes a file set-gid only to a group of the caller's. */
  lemma ChmodEntitled(o: FileOwner, c: Caller, mode: Mode)
    ensures var n := Chmodded(o, c, mode);
            && n.(mode := 0) == o.(mode := 0) && Kind(n.mode) == Kind(o.mode) % 16
            && (c.uid == 0 || InGroup(c, o.gid) ==> PermBits(n.mode) == PermBits(mode))
            && (c.uid != 0 && !InGroup(c, o.gid) ==> PermBits(n.mode) == Without(PermBits(mode), 0x400))
  {
    var n := Chmodded(o, c, mode);
    var kept := if c.uid != 0 && !InGroup(c, o.gid) then Without(PermBits(mode), 0x400) else PermBits(mode);
    assert n.mode == Kind(o.mode) % 16 * 0x1000 + kept;
  }

  // ----- Files recorded at the exit stop

  /** The record made: the kind is the one asked for, or for a path that of the file found there. */
  function Finished(w: Wanted, found: FileOwner, byPath: bool): FileOwner {
    if byPath then w.Of(found).(mode := Kind(found.mode) % 16 * 0x1000 + PermBits(w.mode)) else w.Of(found)
  }

  /** The file found did not exist before, has no record, or belongs to the caller. */
  predicate MayFinish(uid: uint32, live: set<Key>, entries: Owners, k: Key) {
    k in live && k in entries ==> entries[k].uid == uid
  }

  /** The file found belongs to the maker, with the bits asked for; a path says what kind of file it is. */
  lemma FinishedSays(w: Wanted, found: FileOwner, byPath: bool)
    ensures var n := Finished(w, found, byPath);
            && n.Id() == found.Id() && SameBirth(n, found) && n.uid == w.uid && n.gid == w.gid
            && PermBits(n.mode) == PermBits(w.mode)
            && Kind(n.mode) % 16 == Kind(if byPath then found.mode else w.mode) % 16
  {
  }

  /** Recording the file found respects the owners of the others exactly under that condition. */
  lemma FinishRespects(live: set<Key>, entries: Owners, w: Wanted, found: FileOwner, byPath: bool)
    requires Indexed(entries)
    ensures Indexed(entries[found.Id() := Finished(w, found, byPath)])
    ensures Respects(w.uid, live, entries, entries[found.Id() := Finished(w, found, byPath)])
        <==> MayFinish(w.uid, live, entries, found.Id())
  {
    var k, after := found.Id(), entries[found.Id() := Finished(w, found, byPath)];
    assert after[k].uid == w.uid;
  }

  lemma NothingRespects(uid: uint32, live: set<Key>, entries: Owners)
    ensures Respects(uid, live, entries, entries)
  {
  }

  /** The descriptor was given another file before the exit stop: root's file comes to belong to uid 1001. */
  lemma FinishTakesOver()
    ensures var file := FileOwner(1, 7, 0, 0, 0, 0, 0x81A4);
            var entries, w := map[file.Id() := file], Wanted(1001, 1001, 0x8180);
            var after := entries[file.Id() := Finished(w, file, false)];
            && after[file.Id()].uid == 1001
            && !MayFinish(1001, {file.Id()}, entries, file.Id())
            && !Respects(1001, {file.Id()}, entries, after)
  {
    var file := FileOwner(1, 7, 0, 0, 0, 0, 0x81A4);
    var entries, w := map[file.Id() := file], Wanted(1001, 1001, 0x8180);
    FinishRespects({file.Id()}, entries, w, file, false);
  }

  // ----- The layer

  /** An open call's flags; `access` is its access mode, and `tmpfile` comes with `directory`. */
  datatype OpenFlags = OpenFlags(
    access: nat, create: bool, exclusive: bool, truncate: bool, path: bool, directory: bool, tmpfile: bool)
  {
    /** O_PATH drops every flag but O_NOFOLLOW and O_DIRECTORY. */
    function Effective(): OpenFlags {
      if path then OpenFlags(0, false, false, false, true, directory, false) else this
    }

    predicate Writes() { access != 0 }

    function Mask(): nat { if access == 0 then R_OK else if access == 1 then W_OK else R_OK + W_OK }

    function MaskForOld(): nat { if truncate && access == 0 then R_OK + W_OK else Mask() }
  }

  /** The file a call names: a path to nothing, a path to a file, or an open descriptor. */
  datatype Place =
    | Missing(directories: seq<Key>)
    | At(directories: seq<Key>, file: Key)
    | Descriptor(file: Key)

  /** The record a call finds: a descriptor's file is not imported. */
  function Found(stat: Stats, entries: Owners, place: Place): Option<FileOwner> {
    match place
    case Missing(_) => None
    case At(_, file) => Some(RecordOf(stat, entries, file))
    case Descriptor(file) => if file in entries then Some(entries[file]) else None
  }

  /** How a prepared call goes on: refused, answered here, or left to the kernel. */
  datatype Outcome = Refused(error: int) | Answered | ToKernel

  lemma ImportsRespect(uid: uint32, live: set<Key>, stat: Stats, before: Owners, now: Owners)
    requires OnlyImports(stat, before, now)
    ensures Indexed(now) && Respects(uid, live, before, now)
  {
  }

  /** The record after an open: writing by anyone but root ends the set-id bits, even those of a directory. */
  function AfterOpen(o: FileOwner, c: Caller, flags: OpenFlags): FileOwner {
    if !flags.path && c.uid != 0 && flags.Writes() && (SetUid(o.mode) || SetGid(o.mode)) then Cleared(o) else o
  }

  /** An open for writing by anyone but root ends the set-id bits, and no other bit; every other open leaves the record alone. */
  lemma OpenEndsSetId(o: FileOwner, c: Caller, flags: OpenFlags)
    ensures var n := AfterOpen(o, c, flags);
            && n == o.(mode := n.mode)
            && forall k :: Bit(n.mode, k) <==>
                 Bit(o.mode, k) && !(c.uid != 0 && flags.access != 0 && !flags.path && (k == 10 || k == 11))
  {
    SetIdBits(o.mode);
  }

  /** The permissions that an open of a file asks for: to read, to write, or both, and to write also for O_TRUNC. */
  lemma OpenAsks(flags: OpenFlags, o: FileOwner, c: Caller)
    requires c.uid != 0
    ensures Allowed(o, c, flags.MaskForOld()) <==>
              && (flags.access != 1 ==> Bit(o.mode, Deciding(o, c, 2)))
              && (flags.access != 0 || flags.truncate ==> Bit(o.mode, Deciding(o, c, 1)))
    ensures Allowed(o, c, flags.Mask()) <==>
              && (flags.access != 1 ==> Bit(o.mode, Deciding(o, c, 2)))
              && (flags.access != 0 ==> Bit(o.mode, Deciding(o, c, 1)))
  {
    hide Allowed, Deciding;
    MaskBits();
    OthersByClass(o, c, flags.MaskForOld());
    OthersByClass(o, c, flags.Mask());
  }

  lemma MaskBits()
    ensures forall k | 0 <= k < 3 :: (Bit(4, k) <==> k == 2) && (Bit(2, k) <==> k == 1) && (Bit(6, k) <==> k == 1 || k == 2)
  {
    assert Bit(4, 2) == Bit(2, 1) == Bit(1, 0) && Bit(6, 1) == Bit(3, 0) && Bit(6, 2) == Bit(3, 1) == Bit(1, 0);
    assert Bit(4, 1) == Bit(2, 0) && Bit(2, 2) == Bit(1, 1) == Bit(0, 0);
  }

  lemma AfterOpenKeepsId(o: FileOwner, c: Caller, flags: OpenFlags)
    ensures AfterOpen(o, c, flags).Id() == o.Id() && (flags == flags.Effective() || flags.path)
  {
  }

  /** Open has made the file as it should, or has found one that it may open. */
  ghost predicate Opened(stat: Stats, before: Owners, after: Owners, c: Caller, flags: OpenFlags, mode: Mode,
                         directory: Key, made: FileOwner, raced: Option<Key>)
  {
    var parent := RecordOf(stat, before, directory);
    && Allowed(parent, c, W_OK + X_OK)
    && ((made.Id() in after && after[made.Id()] == NewFile(parent, c, mode).Of(made))
        || (raced.Some? && raced.value in after && !flags.exclusive && Allowed(after[raced.value], c, flags.Mask())))
  }

  lemma ImportsIndexed(stat: Stats, before: Owners, now: Owners)
    requires OnlyImports(stat, before, now)
    ensures Indexed(now)
  {
  }

  lemma KeptOnImport(stat: Stats, before: Owners, now: Owners, k: Key)
    requires OnlyImports(stat, before, now)
    ensures k in before ==> k in now && now[k] == before[k]
  {
  }

  /** Imports after imports. */
  lemma ImportsFollow(stat: Stats, before: Owners, mid: Owners, now: Owners, k: Key)
    requires OnlyImports(stat, before, mid) && OnlyImports(stat, mid, now)
    ensures OnlyImports(stat, before, now) && RecordOf(stat, mid, k) == RecordOf(stat, before, k)
  {
  }

  lemma ImportsKeepRespect(uid: uint32, live: set<Key>, stat: Stats, before: Owners, mid: Owners, now: Owners)
    requires Respects(uid, live, before, mid) && OnlyImports(stat, mid, now)
    ensures Respects(uid, live, before, now) && Indexed(now)
  {
  }

  lemma NothingAbove(stat: Stats, entries: Owners, c: Caller)
    ensures Searchable(stat, entries, [], c)
  {
  }

  lemma BothSearchable(stat: Stats, entries: Owners, a: seq<Key>, b: seq<Key>, c: Caller)
    ensures Searchable(stat, entries, a + b, c) <==> Searchable(stat, entries, a, c) && Searchable(stat, entries, b, c)
  {
    if Searchable(stat, entries, a + b, c) {
      assert forall d | d in a :: d in a + b;
      assert forall d | d in b :: d in a + b;
    }
  }

  lemma SearchableStill(stat: Stats, before: Owners, now: Owners, directories: seq<Key>, c: Caller)
    requires OnlyImports(stat, before, now)
    ensures Searchable(stat, before, directories, c) <==> Searchable(stat, now, directories, c)
  {
    hide Allowed, IsDirectory;
    forall d ensures RecordOf(stat, now, d) == RecordOf(stat, before, d) {
      if d in before { assert now[d] == before[d]; } else if d in now { assert now[d] == stat(d); }
    }
  }

  /** Linking somebody else's file takes a plain regular file that the caller may read and write. */
  predicate MayLink(o: FileOwner, c: Caller) {
    c.uid == 0 || c.uid == o.uid
    || (Kind(o.mode) % 16 == 8 && !SetUid(o.mode) && !SetGid(o.mode) && Allowed(o, c, R_OK + W_OK))
  }

  /** An O_PATH open reads, writes, makes and truncates nothing. */
  lemma PathOnly(flags: OpenFlags)
    ensures var f := flags.Effective();
            && f.path == flags.path && f.directory == flags.directory
            && (if flags.path then !f.create && !f.exclusive && !f.truncate && !f.tmpfile && !f.Writes() else f == flags)
  {
  }

  /** Times may be set by root and the owner, and to the present by whoever may write; faccessat takes any of the three bits. */
  lemma GrantedExactly(o: FileOwner, c: Caller)
    requires c.uid != 0
    ensures forall explicit :: Granted(o, c, Times(explicit)) <==>
                                 c.uid == o.uid || (!explicit && Bit(o.mode, Deciding(o, c, 1)))
    ensures forall mask: nat :: Granted(o, c, Faccess(mask)) <==>
                                  mask < 8 && forall k | 0 <= k < 3 && Bit(mask, k) :: Bit(o.mode, Deciding(o, c, k))
    ensures forall explicit :: Granted(o, c.(uid := 0), Times(explicit))
  {
    OthersByClass(o, c, W_OK);
    LowThree(W_OK);
    forall mask: nat | mask < 8
      ensures Allowed(o, c, mask) <==> forall k | 0 <= k < 3 && Bit(mask, k) :: Bit(o.mode, Deciding(o, c, k))
    {
      OthersByClass(o, c, mask);
    }
    hide Bit, Allowed, Deciding;
    assert Allowed(o, c, W_OK) <==> Bit(o.mode, Deciding(o, c, 1));
  }

  /** What keeps a caller from linking: another's file that is no regular one, has a set-id bit, or may not be read and written. */
  lemma LinkRefusedExactly(o: FileOwner, c: Caller)
    ensures !MayLink(o, c) <==>
              && c.uid != 0 && c.uid != o.uid
              && (Kind(o.mode) % 16 != 8 || Bit(o.mode, 10) || Bit(o.mode, 11)
                  || !Bit(o.mode, Deciding(o, c, 2)) || !Bit(o.mode, Deciding(o, c, 1)))
  {
    if c.uid != 0 {
      OthersByClass(o, c, 6);
      LowThree(6);
      hide Bit, Allowed;
      assert Allowed(o, c, 6) <==> Bit(o.mode, Deciding(o, c, 1)) && Bit(o.mode, Deciding(o, c, 2));
    }
  }

  datatype Call =
    | Chowning(place: Place, uid: uint32, gid: uint32, badFlags: bool)
    | Chmodding(place: Place, mode: Mode, badFlags: bool)
    | Opening(place: Place, flags: OpenFlags, mode: Mode, directory: Key, made: FileOwner, raced: Option<Key>)
    | Creating(place: Place, making: Making, directory: Key, made: FileOwner)
    | Finishing(wanted: Wanted, found: FileOwner, byPath: bool)
    | Using(place: Place, access: Access)
    | Removing(place: Place, directory: Key)
    | Moving(place: Place, from: Option<Key>, directories: seq<Key>, there: Option<Key>, to: Key)

  datatype Step = Step(c: Caller, stat: Stats, call: Call)

  /**
    What is made in a fresh staging directory is none of the files that exist. What is found at an exit stop
    may be one of them; then it must be the caller's own.
   */
  predicate Spares(step: Step, live: set<Key>, entries: Owners) {
    match step.call
    case Opening(_, _, _, _, made, _) => made.Id() !in live
    case Creating(_, _, _, made) => made.Id() !in live
    case Finishing(wanted, found, _) =>
      wanted.uid == step.c.uid && MayFinish(step.c.uid, live, entries, found.Id())
    case _ => true
  }

  /** What is asked of a file without changing its record. */
  datatype Access = Faccess(mask: nat) | Times(explicit: bool) | Other(mask: nat)

  /** Whether the access is granted: times may be set to others than the present only by the owner. */
  predicate Granted(o: FileOwner, c: Caller, access: Access) {
    match access
    case Faccess(mask) => mask < 8 && Allowed(o, c, mask)
    case Times(explicit) => c.uid == 0 || c.uid == o.uid || (!explicit && Allowed(o, c, W_OK))
    case Other(mask) => Allowed(o, c, mask)
  }

  lemma RunGrows(live: set<Key>, callers: seq<uint32>, states: seq<Owners>, uid: uint32, now: Owners)
    requires Run(live, callers, states) && uid != 0 && Respects(uid, live, states[|callers|], now)
    ensures Run(live, callers + [uid], states + [now])
  {
    hide Respects;
  }

  lemma RunBegins(live: set<Key>, entries: Owners)
    ensures Run(live, [], [entries])
  {
  }

  lemma OwnersKept(live: set<Key>, callers: seq<uint32>, states: seq<Owners>)
    requires Run(live, callers, states) && live <= states[0].Keys
    ensures |states| == |callers| + 1
    ensures forall k | k in live :: k in states[|callers|] && states[|callers|][k].uid == states[0][k].uid
  {
    hide Respects, Cleared;
    forall k | k in live ensures k in states[|callers|] && states[|callers|][k].uid == states[0][k].uid {
      OwnershipIntegrity(live, callers, states, k);
    }
  }

  /** Since no owner of a recorded file changes, a step may go ahead later if it may at the start. */
  lemma SparesStays(step: Step, live: set<Key>, before: Owners, now: Owners)
    requires Spares(step, live, before)
    requires forall k | k in live * before.Keys :: k in now && now[k].uid == before[k].uid
    ensures Spares(step, live * before.Keys, now)
  {
  }

  /** Each of the directories is one, and the caller may search it. */
  ghost predicate Searchable(stat: Stats, entries: Owners, directories: seq<Key>, c: Caller) {
    forall d | d in directories ::
      IsDirectory(RecordOf(stat, entries, d).mode) && Allowed(RecordOf(stat, entries, d), c, X_OK)
  }

  /** The first of the directories that is none, or may not be searched, gives the error. */
  ghost predicate Blocked(stat: Stats, entries: Owners, directories: seq<Key>, c: Caller, error: int) {
    exists i | 0 <= i < |directories| ::
      var d := RecordOf(stat, entries, directories[i]);
      && Searchable(stat, entries, directories[..i], c)
      && (if IsDirectory(d.mode) then error == EACCES && !Allowed(d, c, X_OK) else error == ENOTDIR)
  }

  function Above(place: Place): seq<Key> {
    match place
    case Missing(directories) => directories
    case At(directories, _) => directories
    case Descriptor(_) => []
  }

  class Filesystem {
    var entries: Owners

    constructor (entries: Owners)
      ensures this.entries == entries
    {
      this.entries := entries;
    }

    /** The record of a file; one without is imported as stat reports it. */
    method Owner(stat: Stats, file: Key) returns (ok: bool, owner: FileOwner)
      requires Indexed(entries)
      modifies this
      ensures OnlyImports(stat, old(entries), entries)
      ensures ok ==> file in entries && owner == entries[file] == RecordOf(stat, old(entries), file)
      ensures file in old(entries) ==> ok
    {
      owner := stat(file);
      if file in entries { return true, entries[file]; }
      ok := Set(owner);
    }

    /** A durable, possibly conditional Set: it may fail before or after its record has landed. */
    method Set(owner: FileOwner) returns (ok: bool)
      modifies this
      ensures entries == old(entries) || entries == old(entries)[owner.Id() := owner]
      ensures ok ==> entries == old(entries)[owner.Id() := owner]
    {
      var landed: bool, answered: bool := *, *;
      if landed { entries := entries[owner.Id() := owner]; }
      return landed && answered;
    }

    /** Search permission on the directories above a path, innermost first. */
    method Search(stat: Stats, directories: seq<Key>, c: Caller) returns (error: int)
      requires Indexed(entries)
      modifies this
      ensures OnlyImports(stat, old(entries), entries)
      ensures error in {0, EIO, ENOTDIR, EACCES}
      ensures error == 0 ==> Searchable(stat, old(entries), directories, c)
      ensures Searchable(stat, old(entries), directories, c) ==> error in {0, EIO}
      ensures error in {0, EIO} || Blocked(stat, old(entries), directories, c, error)
    {
      hide Allowed, IsDirectory;
      for i := 0 to |directories|
        invariant OnlyImports(stat, old(entries), entries)
        invariant forall d | d in directories[..i] ::
                    IsDirectory(RecordOf(stat, old(entries), d).mode) && Allowed(RecordOf(stat, old(entries), d), c, X_OK)
      {
        assert directories[i] in directories;
        var ok, owner := Owner(stat, directories[i]);
        if !ok { return EIO; }
        assert owner == RecordOf(stat, old(entries), directories[i]);
        if !IsDirectory(owner.mode) { return ENOTDIR; }
        if !Allowed(owner, c, X_OK) { return EACCES; }
        assert directories[..i + 1] == directories[..i] + [directories[i]];
      }
      assert directories[..|directories|] == directories;
      return 0;
    }

    /** The directory an entry is made in or taken from. */
    method Parent(stat: Stats, directory: Key, c: Caller) returns (error: int, parent: FileOwner)
      requires Indexed(entries)
      modifies this
      ensures OnlyImports(stat, old(entries), entries)
      ensures error == 0 ==> parent == RecordOf(stat, old(entries), directory) && Allowed(parent, c, W_OK + X_OK)
      ensures error in {0, EIO, EACCES}
      ensures error == EACCES ==> !Allowed(RecordOf(stat, old(entries), directory), c, W_OK + X_OK)
    {
      hide Allowed;
      var ok;
      ok, parent := Owner(stat, directory);
      error := if !ok then EIO else if !Allowed(parent, c, W_OK + X_OK) then EACCES else 0;
    }

    /** The common head: search the directories, unless a descriptor is given, and look the file up. */
    method Reach(stat: Stats, place: Place, c: Caller) returns (error: int, owner: Option<FileOwner>)
      requires Indexed(entries)
      modifies this
      ensures OnlyImports(stat, old(entries), entries)
      ensures error == 0 ==> owner == Found(stat, old(entries), place)
      ensures error == 0 && owner.Some? ==> owner.value.Id() in entries && entries[owner.value.Id()] == owner.value
      ensures error in {0, EIO, ENOTDIR, EACCES}
      ensures error == 0 ==> Searchable(stat, old(entries), Above(place), c)
      ensures Searchable(stat, old(entries), Above(place), c) ==> error in {0, EIO}
      ensures error in {0, EIO} || Blocked(stat, old(entries), Above(place), c, error)
    {
      hide Searchable, Blocked;
      NothingAbove(stat, entries, c);
      owner := None;
      match place {
        case Descriptor(file) =>
          return 0, if file in entries then Some(entries[file]) else None;
        case Missing(directories) =>
          error := Search(stat, directories, c);
        case At(directories, file) =>
          error := Search(stat, directories, c);
          if error != 0 { return; }
          var ok, o := Owner(stat, file);
          if !ok { return EIO, None; }
          return 0, Some(o);
      }
    }

    /** Change one record, as its maker is entitled to. */
    method Change(uid: uint32, o: FileOwner, next: FileOwner, ghost stat: Stats, ghost before: Owners, ghost live: set<Key>)
      returns (ok: bool)
      requires OnlyImports(stat, before, entries) && o.Id() in entries && entries[o.Id()] == o && next.Id() == o.Id()
      requires uid != 0 ==> next.uid == o.uid && (o.uid != uid ==> next == o || next == Cleared(o))
      modifies this
      ensures Indexed(entries) && (uid != 0 ==> Respects(uid, live, before, entries))
      ensures entries == old(entries) || entries == old(entries)[next.Id() := next]
      ensures ok ==> entries == old(entries)[next.Id() := next]
    {
      hide Respects, Cleared;
      if uid != 0 {
        ImportsRespect(uid, live, stat, before, entries);
        ChangeRespects(uid, live, stat, before, entries, o, next);
      }
      ok := Set(next);
    }

    /** fchownat and fchown. */
    method Chown(stat: Stats, place: Place, c: Caller, uid: uint32, gid: uint32, badFlags: bool, ghost live: set<Key>)
      returns (out: Outcome)
      requires Indexed(entries)
      modifies this
      ensures Indexed(entries) && !out.ToKernel?
      ensures c.uid != 0 ==> Respects(c.uid, live, old(entries), entries)
      ensures out.Answered? ==>
                var was := Found(stat, old(entries), place);
                && was.Some? && MayChown(was.value, c, uid, gid) && was.value.Id() in entries
                && entries[was.value.Id()] == Chowned(was.value, uid, gid)
      ensures Found(stat, old(entries), place).Some? && !MayChown(Found(stat, old(entries), place).value, c, uid, gid) ==>
                OnlyImports(stat, old(entries), entries)
      // A refusal has its reason; EIO is the kernel's.
      ensures var was := Found(stat, old(entries), place);
              out.Refused? && Searchable(stat, old(entries), Above(place), c) ==>
                || out.error == EIO || (out.error == ENOENT && was.None?) || (out.error == EINVAL && badFlags)
                || (out.error == EPERM && was.Some? && !MayChown(was.value, c, uid, gid))
    {
      hide Respects, OnlyImports, Cleared, MayChown, Chowned, Found, Searchable;
      var error, owner := Reach(stat, place, c);
      ImportsRespect(c.uid, live, stat, old(entries), entries);
      if error != 0 { return Refused(error); }
      if owner.None? { return Refused(ENOENT); }
      if badFlags { return Refused(EINVAL); }
      var o := owner.value;
      if !MayChown(o, c, uid, gid) { return Refused(EPERM); }
      var next := Chowned(o, uid, gid);
      ChownEntitled(o, c, uid, gid);
      var ok := Change(c.uid, o, next, stat, old(entries), live);
      return if ok then Answered else Refused(EIO);
    }

    /** fchmod, fchmodat and fchmodat2: the record first, then the host file. */
    method Chmod(stat: Stats, place: Place, c: Caller, mode: Mode, badFlags: bool, ghost live: set<Key>)
      returns (out: Outcome)
      requires Indexed(entries)
      modifies this
      ensures Indexed(entries) && !out.ToKernel?
      ensures c.uid != 0 ==> Respects(c.uid, live, old(entries), entries)
      ensures out.Answered? ==>
                var was := Found(stat, old(entries), place);
                && was.Some? && (c.uid == 0 || c.uid == was.value.uid) && !IsLink(was.value.mode)
                && was.value.Id() in entries && entries[was.value.Id()] == Chmodded(was.value, c, mode)
      ensures var was := Found(stat, old(entries), place);
              was.Some? && ((c.uid != 0 && c.uid != was.value.uid) || IsLink(was.value.mode)) ==>
                OnlyImports(stat, old(entries), entries)
      ensures var was := Found(stat, old(entries), place);
              out.Refused? && Searchable(stat, old(entries), Above(place), c) ==>
                || out.error == EIO || (out.error == ENOENT && was.None?) || (out.error == EINVAL && badFlags)
                || (out.error == EPERM && was.Some? && c.uid != 0 && c.uid != was.value.uid)
                || (out.error == EOPNOTSUPP && was.Some? && IsLink(was.value.mode))
    {
      hide Respects, OnlyImports, Cleared, Chmodded, Found, IsLink, Searchable;
      var error, owner := Reach(stat, place, c);
      ImportsRespect(c.uid, live, stat, old(entries), entries);
      if error != 0 { return Refused(error); }
      if owner.None? { return Refused(ENOENT); }
      var o := owner.value;
      if c.uid != 0 && c.uid != o.uid { return Refused(EPERM); }
      if badFlags { return Refused(EINVAL); }
      if IsLink(o.mode) { return Refused(EOPNOTSUPP); }
      ChmodEntitled(o, c, mode);
      var ok := Change(c.uid, o, Chmodded(o, c, mode), stat, old(entries), live);
      var hostChanged: bool := *;
      return if ok && hostChanged then Answered else Refused(EIO);
    }

    /** Accesses that change no record: chdir, exec, truncate, extended attributes, utimensat, faccessat. */
    method Use(stat: Stats, place: Place, c: Caller, access: Access) returns (out: Outcome)
      requires Indexed(entries)
      modifies this
      ensures OnlyImports(stat, old(entries), entries)
      ensures out.Answered? ==>
                var was := Found(stat, old(entries), place);
                access.Faccess? && was.Some? && Granted(was.value, c, access)
      ensures out.ToKernel? ==>
                var was := Found(stat, old(entries), place);
                !access.Faccess? && (was.Some? ==> Granted(was.value, c, access))
      ensures var was := Found(stat, old(entries), place);
              out.Refused? && Searchable(stat, old(entries), Above(place), c) ==>
                || out.error == EIO || (out.error == ENOENT && access.Faccess? && was.None?)
                || (was.Some? && !Granted(was.value, c, access)
                    && out.error == match access case Faccess(mask) => if mask < 8 then EACCES else EINVAL
                                                 case Times(explicit) => if explicit then EPERM else EACCES
                                                 case Other(_) => EACCES)
      ensures out.Refused? && !Searchable(stat, old(entries), Above(place), c) ==>
                out.error == EIO || Blocked(stat, old(entries), Above(place), c, out.error)
    {
      hide OnlyImports, Found, Allowed, Searchable, Blocked;
      var error, owner := Reach(stat, place, c);
      if error != 0 { return Refused(error); }
      match access {
        case Faccess(mask) =>
          if owner.None? { return Refused(ENOENT); }
          if mask >= 8 { return Refused(EINVAL); }
          return if Allowed(owner.value, c, mask) then Answered else Refused(EACCES);
        case Times(explicit) =>
          if owner.None? || c.uid == 0 || c.uid == owner.value.uid { return ToKernel; }
          if explicit { return Refused(EPERM); }
          return if Allowed(owner.value, c, W_OK) then ToKernel else Refused(EACCES);
        case Other(mask) =>
          return if owner.Some? && !Allowed(owner.value, c, mask) then Refused(EACCES) else ToKernel;
      }
    }

    /** Make a file and its record; it may fail with the record made or not. */
    method Create(w: Wanted, made: FileOwner) returns (error: int)
      modifies this
      ensures entries == old(entries) || entries == old(entries)[made.Id() := w.Of(made)]
      ensures error == 0 ==> entries == old(entries)[made.Id() := w.Of(made)]
    {
      var ok := Set(w.Of(made));
      error := *;
      if !ok && error == 0 { error := EIO; }
    }

    /** What open asks of a file that is there; writing by anyone but root ends its set-id bits. */
    method OpenOld(stat: Stats, o: FileOwner, c: Caller, flags: OpenFlags, ghost before: Owners, ghost live: set<Key>)
      returns (error: int, now: FileOwner)
      requires OnlyImports(stat, before, entries) && o.Id() in entries && entries[o.Id()] == o
      modifies this
      ensures Indexed(entries) && (c.uid != 0 ==> Respects(c.uid, live, before, entries))
      ensures error == 0 ==> (flags.path || Allowed(o, c, flags.MaskForOld()))
      ensures error == 0 ==> now == AfterOpen(o, c, flags) && entries == old(entries)[o.Id() := now]
      ensures error in {0, EIO, EACCES}
      ensures error == EACCES ==> !flags.path && !Allowed(o, c, flags.MaskForOld())
    {
      hide Respects, WithoutSetId, Allowed, SetUid, SetGid, OnlyImports;
      ImportsRespect(c.uid, live, stat, before, entries);
      assert entries == entries[o.Id() := o];
      if flags.path { return 0, o; }
      if !Allowed(o, c, flags.MaskForOld()) { return EACCES, o; }
      if c.uid == 0 || !flags.Writes() || !(SetUid(o.mode) || SetGid(o.mode)) { return 0, o; }
      now := Cleared(o);
      var ok := Change(c.uid, o, now, stat, before, live);
      error := if ok then 0 else EIO;
    }

    /** The branch of open that makes the file, or opens one that somebody else has just made. */
    method OpenNew(stat: Stats, c: Caller, flags: OpenFlags, mode: Mode, directory: Key, made: FileOwner,
                   raced: Option<Key>, ghost before: Owners, ghost live: set<Key>)
      returns (error: int, ghost said: Option<int>)
      requires OnlyImports(stat, before, entries) && made.Id() !in live
      modifies this
      ensures Indexed(entries) && Respects(c.uid, live, before, entries)
      ensures error == 0 ==> Opened(stat, before, entries, c, flags, mode, directory, made, raced)
      // What the store said of the new file decides, but for a file that was made there in the meantime.
      ensures said.None? ==> error in {EIO, EACCES}
                             && (error == EACCES ==> !Allowed(RecordOf(stat, before, directory), c, W_OK + X_OK))
      ensures said.Some? ==>
                if said.value == EEXIST && !flags.exclusive
                then error in {0, EACCES}
                     && (error == 0 ==>
                           raced.Some? && raced.value in entries && Allowed(entries[raced.value], c, flags.Mask()))
                else error == said.value
    {
      hide Respects, Allowed, NewFile, OnlyImports;
      said := None;
      var parent;
      ghost var reached := entries;
      ImportsIndexed(stat, before, entries);
      error, parent := Parent(stat, directory, c);
      ImportsFollow(stat, before, reached, entries, directory);
      ImportsRespect(c.uid, live, stat, before, entries);
      if error != 0 { return; }
      var w := NewFile(parent, c, mode);
      CreationRespects(c.uid, live, stat, before, entries, w.Of(made));
      error := Create(w, made);
      said := Some(error);
      if error == 0 || error != EEXIST || flags.exclusive { return; }
      if raced.None? { return EACCES, said; }
      ghost var created := entries;
      var ok, found := Owner(stat, raced.value);
      ImportsKeepRespect(c.uid, live, stat, before, created, entries);
      error := if ok && Allowed(found, c, flags.Mask()) then 0 else EACCES;
    }

    /** openat and openat2. A file made under O_TMPFILE is recorded when the call returns. */
    method Open(stat: Stats, place: Place, c: Caller, asked: OpenFlags, mode: Mode, directory: Key, made: FileOwner,
                raced: Option<Key>, ghost live: set<Key>)
      returns (out: Outcome, pending: Option<Wanted>, kernel: OpenFlags)
      requires Indexed(entries) && made.Id() !in live
      modifies this
      ensures Indexed(entries) && !out.Answered?
      ensures c.uid != 0 ==> Respects(c.uid, live, old(entries), entries)
      ensures out.ToKernel? ==>
                var was, flags := Found(stat, old(entries), place), asked.Effective();
                && (was.Some? && !flags.path ==> Allowed(was.value, c, flags.MaskForOld()))
                && (was.Some? ==> !(flags.create && flags.exclusive) && was.value.Id() in entries
                                  && entries[was.value.Id()] == AfterOpen(was.value, c, flags))
                && (was.None? && flags.create ==>
                      !flags.tmpfile && Opened(stat, old(entries), entries, c, flags, mode, directory, made, raced))
      // The file that was just made must not stop the kernel's own open.
      ensures kernel == if out.ToKernel? && asked.Effective().create && Found(stat, old(entries), place).None?
                        then asked.(exclusive := false) else asked
      ensures pending.Some? ==>
                var was := Found(stat, old(entries), place);
                && was.Some? && asked.tmpfile
                && pending.value == NewFile(AfterOpen(was.value, c, asked), c, mode)
                && Allowed(AfterOpen(was.value, c, asked), c, W_OK + X_OK)
      ensures out.ToKernel? ==> (pending.Some? <==> asked.Effective().tmpfile && Found(stat, old(entries), place).Some?)
      // What is there is refused with a reason, and what is not there is refused unless it is to be made.
      ensures var was, flags := Found(stat, old(entries), place), asked.Effective();
              out.Refused? && Searchable(stat, old(entries), Above(place), c) ==>
                || out.error == EIO || (out.error == EINVAL && flags.create && flags.directory && !flags.tmpfile)
                || (was.Some? && out.error == EEXIST && flags.create && flags.exclusive)
                || (was.Some? && out.error == EACCES && !flags.path && !Allowed(was.value, c, flags.MaskForOld()))
                || (was.Some? && out.error == EACCES && flags.tmpfile
                    && !Allowed(AfterOpen(was.value, c, flags), c, W_OK + X_OK))
                || (was.None? && flags.create && (flags.tmpfile ==> out.error == EACCES))
    {
      hide Respects, Allowed, NewFile, OnlyImports, Found, AfterOpen, Searchable, Blocked;
      var flags := asked.Effective();
      var error, owner := Reach(stat, place, c);
      ImportsRespect(c.uid, live, stat, old(entries), entries);
      if error != 0 { return Refused(error), None, asked; }
      if flags.create && flags.directory && !flags.tmpfile { return Refused(EINVAL), None, asked; }
      if owner.None? {
        if !flags.create { return ToKernel, None, asked; }
        if flags.tmpfile { return Refused(EACCES), None, asked; }
        ghost var said;
        error, said := OpenNew(stat, c, flags, mode, directory, made, raced, old(entries), live);
        if error != 0 { return Refused(error), None, asked; }
        return ToKernel, None, asked.(exclusive := false);
      }
      if flags.create && flags.exclusive { return Refused(EEXIST), None, asked; }
      var now;
      error, now := OpenOld(stat, owner.value, c, flags, old(entries), live);
      if error != 0 { return Refused(error), None, asked; }
      AfterOpenKeepsId(owner.value, c, flags);
      if !flags.tmpfile { return ToKernel, None, asked; }
      if !Allowed(now, c, W_OK + X_OK) { return Refused(EACCES), None, asked; }
      return ToKernel, Some(NewFile(now, c, mode)), asked;
    }

    /** mkdir, mknod and symlink. */
    method Make(stat: Stats, place: Place, c: Caller, making: Making, directory: Key, made: FileOwner,
                ghost live: set<Key>) returns (out: Outcome, ghost said: Option<int>)
      requires Indexed(entries) && made.Id() !in live
      modifies this
      ensures Indexed(entries) && !out.ToKernel?
      ensures c.uid != 0 ==> Respects(c.uid, live, old(entries), entries)
      ensures out.Answered? ==>
                var parent := RecordOf(stat, old(entries), directory);
                && Found(stat, old(entries), place).None? && Allowed(parent, c, W_OK + X_OK)
                && NewNode(making, parent, c).Some?
                && made.Id() in entries && entries[made.Id()] == NewNode(making, parent, c).value.Of(made)
      ensures Found(stat, old(entries), place).Some? ==> out.Refused? && OnlyImports(stat, old(entries), entries)
      ensures Found(stat, old(entries), place).Some? && Searchable(stat, old(entries), Above(place), c) ==>
                out.error in {EIO, EEXIST}
      // Unless the store has been asked, a free name is refused with a reason of this layer.
      ensures said.Some? ==> out == if said.value == 0 then Answered else Refused(said.value)
      ensures said.None? && Found(stat, old(entries), place).None? && Searchable(stat, old(entries), Above(place), c) ==>
                var parent := RecordOf(stat, old(entries), directory);
                out.Refused? && (|| out.error == EIO || (out.error == EACCES && !Allowed(parent, c, W_OK + X_OK))
                                 || (out.error == EPERM && NewNode(making, parent, c).None?))
    {
      hide Respects, Allowed, NewNode, OnlyImports, Found, Searchable, Blocked;
      said := None;
      var error, owner := Reach(stat, place, c);
      ImportsRespect(c.uid, live, stat, old(entries), entries);
      if error != 0 { return Refused(error), None; }
      if owner.Some? { return Refused(EEXIST), None; }
      ghost var reached := entries;
      var parent;
      error, parent := Parent(stat, directory, c);
      ImportsFollow(stat, old(entries), reached, entries, directory);
      ImportsRespect(c.uid, live, stat, old(entries), entries);
      if error != 0 { return Refused(error), None; }
      var w := NewNode(making, parent, c);
      if w.None? { return Refused(EPERM), None; }
      CreationRespects(c.uid, live, stat, old(entries), entries, w.value.Of(made));
      error := Create(w.value, made);
      return if error == 0 then Answered else Refused(error), Some(error);
    }

    /**
      At the exit stop of an O_TMPFILE open or of a bind: the file that the descriptor or the path names by
      then is recorded. That it is the one the call has made is not checked.
     */
    method Finish(stat: Stats, pending: Wanted, found: FileOwner, byPath: bool, ghost live: set<Key>)
      returns (ok: bool)
      requires Indexed(entries)
      modifies this
      ensures Indexed(entries)
      ensures MayFinish(pending.uid, live, old(entries), found.Id()) ==>
                Respects(pending.uid, live, old(entries), entries)
      ensures entries == old(entries) || entries == old(entries)[found.Id() := Finished(pending, found, byPath)]
      ensures ok ==> entries == old(entries)[found.Id() := Finished(pending, found, byPath)]
    {
      FinishRespects(live, entries, pending, found, byPath);
      NothingRespects(pending.uid, live, entries);
      ok := Set(Finished(pending, found, byPath));
    }

    /** The directory side of unlink and rename: writable, and the sticky rule obeyed. */
    method Entry(stat: Stats, target: FileOwner, c: Caller, directory: Key) returns (error: int)
      requires Indexed(entries)
      modifies this
      ensures OnlyImports(stat, old(entries), entries)
      ensures error == 0 ==>
                var parent := RecordOf(stat, old(entries), directory);
                Allowed(parent, c, W_OK + X_OK) && !StickyForbids(parent, target, c)
      ensures error in {0, EIO, EACCES, EPERM}
      ensures var parent := RecordOf(stat, old(entries), directory);
              && (error == EACCES ==> !Allowed(parent, c, W_OK + X_OK))
              && (error == EPERM ==> StickyForbids(parent, target, c))
    {
      hide OnlyImports, Allowed, StickyForbids;
      var parent;
      error, parent := Parent(stat, directory, c);
      if error == 0 && StickyForbids(parent, target, c) { error := EPERM; }
    }

    /** unlink and the removing half of rename; the recorded owners are not touched. */
    method Remove(stat: Stats, place: Place, c: Caller, directory: Key) returns (out: Outcome)
      requires Indexed(entries)
      modifies this
      ensures OnlyImports(stat, old(entries), entries) && !out.Answered?
      ensures out.ToKernel? ==>
                var was, parent := Found(stat, old(entries), place), RecordOf(stat, old(entries), directory);
                was.Some? && Allowed(parent, c, W_OK + X_OK) && !StickyForbids(parent, was.value, c)
      ensures var was, parent := Found(stat, old(entries), place), RecordOf(stat, old(entries), directory);
              out.Refused? && Searchable(stat, old(entries), Above(place), c) ==>
                || out.error == EIO || (out.error == ENOENT && was.None?)
                || (out.error == EACCES && !Allowed(parent, c, W_OK + X_OK))
                || (out.error == EPERM && was.Some? && StickyForbids(parent, was.value, c))
    {
      hide OnlyImports, Allowed, StickyForbids, Found, Searchable;
      var error, owner := Reach(stat, place, c);
      if error != 0 { return Refused(error); }
      if owner.None? { return Refused(ENOENT); }
      ghost var reached := entries;
      ImportsIndexed(stat, old(entries), entries);
      error := Entry(stat, owner.value, c, directory);
      ImportsFollow(stat, old(entries), reached, entries, directory);
      return if error == 0 then ToKernel else Refused(error);
    }

    /** The arriving half of rename and link. */
    method Arrive(stat: Stats, directories: seq<Key>, there: Option<Key>, c: Caller, directory: Key) returns (error: int)
      requires Indexed(entries)
      modifies this
      ensures OnlyImports(stat, old(entries), entries)
      ensures error == 0 ==> Allowed(RecordOf(stat, old(entries), directory), c, W_OK + X_OK)
      ensures error == 0 && there.Some? && there.value in old(entries) ==>
                !StickyForbids(RecordOf(stat, old(entries), directory), old(entries)[there.value], c)
      ensures var parent := RecordOf(stat, old(entries), directory);
              Searchable(stat, old(entries), directories, c) ==>
                || error in {0, EIO} || (error == EACCES && !Allowed(parent, c, W_OK + X_OK))
                || (error == EPERM && there.Some? && StickyForbids(parent, RecordOf(stat, old(entries), there.value), c))
      ensures error == 0 ==> Searchable(stat, old(entries), directories, c)
    {
      hide OnlyImports, Allowed, StickyForbids, Searchable;
      error := Search(stat, directories, c);
      if error != 0 { return; }
      ghost var searched := entries;
      ImportsIndexed(stat, old(entries), entries);
      var parent;
      error, parent := Parent(stat, directory, c);
      ImportsFollow(stat, old(entries), searched, entries, directory);
      if error != 0 || there.None? { return; }
      ghost var checked := entries;
      ImportsIndexed(stat, old(entries), entries);
      var ok, replaced := Owner(stat, there.value);
      KeptOnImport(stat, old(entries), checked, there.value);
      KeptOnImport(stat, checked, entries, there.value);
      ImportsFollow(stat, old(entries), checked, entries, directory);
      if ok && StickyForbids(parent, replaced, c) { error := EPERM; }
    }

    /** rename and link. */
    method Move(stat: Stats, place: Place, c: Caller, directory: Option<Key>,
                directories: seq<Key>, there: Option<Key>, newDirectory: Key) returns (out: Outcome)
      requires Indexed(entries)
      modifies this
      ensures OnlyImports(stat, old(entries), entries) && !out.Answered?
      ensures out.ToKernel? ==>
                var was := Found(stat, old(entries), place);
                var parent := RecordOf(stat, old(entries), newDirectory);
                && was.Some? && Allowed(parent, c, W_OK + X_OK)
                && (there.Some? && there.value in old(entries) ==>
                      !StickyForbids(parent, old(entries)[there.value], c))
                && (if directory.None? then MayLink(was.value, c)
                    else var source := RecordOf(stat, old(entries), directory.value);
                         Allowed(source, c, W_OK + X_OK) && !StickyForbids(source, was.value, c))
      ensures var was := Found(stat, old(entries), place);
              var parent := RecordOf(stat, old(entries), newDirectory);
              out.Refused? && Searchable(stat, old(entries), Above(place) + directories, c) ==>
                || out.error == EIO || (out.error == ENOENT && was.None?)
                || (out.error == EACCES && !Allowed(parent, c, W_OK + X_OK))
                || (out.error == EPERM && there.Some? && StickyForbids(parent, RecordOf(stat, old(entries), there.value), c))
                || (was.Some? && directory.None? && out.error == EPERM && !MayLink(was.value, c))
                || (was.Some? && directory.Some? && out.error == EACCES
                    && !Allowed(RecordOf(stat, old(entries), directory.value), c, W_OK + X_OK))
                || (was.Some? && directory.Some? && out.error == EPERM
                    && StickyForbids(RecordOf(stat, old(entries), directory.value), was.value, c))
    {
      hide OnlyImports, Allowed, StickyForbids, Found, MayLink, Searchable;
      BothSearchable(stat, entries, Above(place), directories, c);
      var error, owner := Reach(stat, place, c);
      if error != 0 { return Refused(error); }
      if owner.None? { return Refused(ENOENT); }
      ghost var reached := entries;
      ImportsIndexed(stat, old(entries), entries);
      if directory.Some? {
        error := Entry(stat, owner.value, c, directory.value);
        ImportsFollow(stat, old(entries), reached, entries, directory.value);
        if error != 0 { return Refused(error); }
      } else if !MayLink(owner.value, c) { return Refused(EPERM); }
      ghost var left := entries;
      ImportsIndexed(stat, old(entries), entries);
      SearchableStill(stat, old(entries), left, directories, c);
      if there.Some? { ImportsFollow(stat, old(entries), old(entries), left, there.value); }
      error := Arrive(stat, directories, there, c, newDirectory);
      ImportsFollow(stat, old(entries), left, entries, newDirectory);
      if there.Some? { KeptOnImport(stat, old(entries), left, there.value); }
      return if error == 0 then ToKernel else Refused(error);
    }

    /** Any one call. */
    method Serve(step: Step, ghost live: set<Key>)
      requires Indexed(entries) && step.c.uid != 0 && Spares(step, live, entries)
      modifies this
      ensures Indexed(entries) && Respects(step.c.uid, live, old(entries), entries)
    {
      hide Respects, OnlyImports, Indexed, Found, Allowed, MayChown, Opened;
      var c, stat := step.c, step.stat;
      match step.call {
        case Chowning(place, uid, gid, bad) =>
          var _ := Chown(stat, place, c, uid, gid, bad, live);
        case Chmodding(place, mode, bad) =>
          var _ := Chmod(stat, place, c, mode, bad, live);
        case Opening(place, flags, mode, directory, made, raced) =>
          var _, _, _ := Open(stat, place, c, flags, mode, directory, made, raced, live);
        case Creating(place, making, directory, made) =>
          var _, _ := Make(stat, place, c, making, directory, made, live);
        case Finishing(wanted, found, byPath) =>
          var _ := Finish(stat, wanted, found, byPath, live);
        case Using(place, access) =>
          var _ := Use(stat, place, c, access);
          ImportsRespect(c.uid, live, stat, old(entries), entries);
        case Removing(place, directory) =>
          var _ := Remove(stat, place, c, directory);
          ImportsRespect(c.uid, live, stat, old(entries), entries);
        case Moving(place, directory, directories, there, newDirectory) =>
          var _ := Move(stat, place, c, directory, directories, there, newDirectory);
          ImportsRespect(c.uid, live, stat, old(entries), entries);
      }
    }

    /**
      Any sequence of calls by callers other than root: a file that exists throughout keeps its uid, and one
      that belongs to none of them changes at most by losing its set-id bits.
     */
    method ServeAll(steps: seq<Step>, ghost live: set<Key>)
      requires Indexed(entries)
      requires forall s | s in steps :: s.c.uid != 0 && Spares(s, live, entries)
      modifies this
      ensures forall k | k in live && k in old(entries) ::
                && k in entries && entries[k].uid == old(entries)[k].uid
                && ((forall s | s in steps :: s.c.uid != old(entries)[k].uid) ==>
                      entries[k] == old(entries)[k] || entries[k] == Cleared(old(entries)[k]))
    {
      hide Respects, Spares, Indexed, Cleared, Run;
      ghost var before := entries;
      ghost var kept := live * before.Keys;
      ghost var callers: seq<uint32>, states := [], [before];
      RunBegins(kept, before);
      for i := 0 to |steps|
        invariant Indexed(entries) && |callers| == i && |states| == i + 1 && Run(kept, callers, states)
        invariant states[0] == before && states[i] == entries
        invariant forall j | 0 <= j < i :: callers[j] == steps[j].c.uid
      {
        assert steps[i] in steps;
        OwnersKept(kept, callers, states);
        SparesStays(steps[i], live, before, entries);
        Serve(steps[i], kept);
        RunGrows(kept, callers, states, steps[i].c.uid, entries);
        callers, states := callers + [steps[i].c.uid], states + [entries];
      }
      forall k | k in live && k in before
        ensures k in entries && entries[k].uid == before[k].uid
        ensures before[k].uid !in callers ==> entries[k] == before[k] || entries[k] == Cleared(before[k])
      {
        OwnershipIntegrity(kept, callers, states, k);
      }
      forall k | k in before && (forall s | s in steps :: s.c.uid != before[k].uid)
        ensures before[k].uid !in callers
      {
        assert forall j | 0 <= j < |steps| :: steps[j] in steps;
      }
    }
  }
}
