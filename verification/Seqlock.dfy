/**
  Lock-free lookups against the writers of the shared file table, as interleaved
  single loads and stores under sequential consistency. Writers hold the writer lock
  and may be killed between any two stores; readers copy a slot field by field.
 */
module Seqlock {
  import opened Types
  import opened FileTable
  import P = Probing

  // ----- Field-by-field copies

  const FIELDS: nat := 7

  /** `slot` after the first `k` fields of `owner` have been stored over it, in WriteOwner's order. */
  function Copied(slot: FileOwner, owner: FileOwner, k: nat): FileOwner {
    FileOwner(
      if k > 0 then owner.device else slot.device,
      if k > 1 then owner.inode else slot.inode,
      if k > 2 then owner.birthSeconds else slot.birthSeconds,
      if k > 3 then owner.birthNanoseconds else slot.birthNanoseconds,
      if k > 4 then owner.uid else slot.uid,
      if k > 5 then owner.gid else slot.gid,
      if k > 6 then owner.mode else slot.mode)
  }

  /** `slot` with field number `k` of `owner`, as a single load or store leaves it. */
  function WithField(slot: FileOwner, owner: FileOwner, k: nat): FileOwner {
    FileOwner(
      if k == 0 then owner.device else slot.device,
      if k == 1 then owner.inode else slot.inode,
      if k == 2 then owner.birthSeconds else slot.birthSeconds,
      if k == 3 then owner.birthNanoseconds else slot.birthNanoseconds,
      if k == 4 then owner.uid else slot.uid,
      if k == 5 then owner.gid else slot.gid,
      if k == 6 then owner.mode else slot.mode)
  }

  /** `after` differs from `before` at most in field number `k`. */
  predicate OneField(before: FileOwner, after: FileOwner, k: nat) {
    k < FIELDS && after == WithField(before, after, k)
  }

  /** A copy into which fields `k` up to `n` have been loaded, one at a time, from one state of a slot. */
  function Loaded(copy: FileOwner, slot: FileOwner, k: nat, n: nat): FileOwner
    requires k <= n
  {
    if k == n then copy else WithField(Loaded(copy, slot, k, n - 1), slot, n - 1)
  }

  lemma {:induction false} LoadedFields(copy: FileOwner, slot: FileOwner, k: nat, n: nat)
    requires k <= n <= FIELDS
    ensures Loaded(copy, slot, k, n) == Copied(copy, Copied(slot, copy, k), n)
  {
    if k < n { LoadedFields(copy, slot, k, n - 1); }
  }

  /** A slot that changes while it is being read gives a torn copy: the first fields old, the others new. */
  lemma TornCopy(copy: FileOwner, before: FileOwner, after: FileOwner, k: nat)
    requires k <= FIELDS
    ensures Loaded(Loaded(copy, before, 0, k), after, k, FIELDS) == Copied(after, before, k)
  {
    LoadedFields(copy, before, 0, k);
    LoadedFields(Loaded(copy, before, 0, k), after, k, FIELDS);
  }

  // ----- The writer

  /** Where the holder of the writer lock is. */
  datatype Writer =
    | Free
    | Held                                   // between operations
    | Rebuilding                             // Replay, storing into the table
    | Rebuilt                                // Replay, table complete
    | Journalling(owner: FileOwner)          // SetLocked, before the record is complete
    | Journalled(owner: FileOwner)           // SetLocked, record complete, before Put
    // Put into slot `index` of table `base`: k fields stored; `bump` if it found the version even.
    | Putting(owner: FileOwner, index: nat, base: seq<FileOwner>, k: nat, bump: bool)
    | Stored                                 // SetLocked, after Put
    | Leaving                                // SetLocked failed; only Unlock is left

  // ----- Readers

  /** A Lookup of `key`, called when `since` was the newest published map. */
  datatype Reader =
    | Starting(key: Key, since: nat)
    | Reading(key: Key, since: nat, seen: nat, n: nat, k: nat, copy: FileOwner)
    | Checking(key: Key, since: nat, seen: nat, result: Option<FileOwner>)
    | Returned(key: Key, since: nat, until: nat, result: Option<FileOwner>)

  /**
    `committed` lists the maps the journal has gone through, `published` those the table has held
    in full. Both only serve to state what readers see.
   */
  datatype State = State(
    version: nat, dirty: bool, files: seq<FileOwner>, writer: Writer,
    readers: map<nat, Reader>, committed: seq<Owners>, published: seq<Owners>)

  function Last(maps: seq<Owners>): Owners
    requires maps != []
  {
    maps[|maps| - 1]
  }

  function Odd(version: nat): nat { version / 2 * 2 + 1 }

  function Even(version: nat): nat { (version + 1) / 2 * 2 }

  /** An odd version tells readers of a writer at work; the parity is all that entering and leaving change, by one step at most. */
  lemma Parity(version: nat)
    ensures Odd(version) % 2 == 1 && version <= Odd(version) <= version + 1
    ensures Even(version) % 2 == 0 && version <= Even(version) <= version + 1
  {
  }

  // ----- Steps of the writer

  datatype Action =
    | LockClean | LockDirty | Unlock | Kill
    | StoreAny(slot: nat, field: nat, value: FileOwner) | FinishRebuild | ClearDirty | CloseRebuild
    | BeginSet(owner: FileOwner) | FailJournal | CommitRecord
    | BeginPut(index: nat) | StoreField | EndPut | EndSet
    | TouchProcess

  ghost predicate Shaped(s: State) {
    s.committed != [] && s.published != [] && |s.files| == SLOTS
  }

  ghost predicate Writes(s: State, a: Action, t: State)
    requires Shaped(s)
  {
    match a
    case LockClean => s.writer.Free? && !s.dirty && t == s.(writer := Held)
    case LockDirty => s.writer.Free? && s.dirty && t == s.(writer := Rebuilding, version := Odd(s.version))
    case Unlock => (s.writer.Held? || s.writer.Leaving?) && t == s.(writer := Free, version := Even(s.version))
    case Kill => t == s.(writer := Free)
    // Replay may store anything anywhere, as long as the table it ends with is the one committed.
    case StoreAny(slot, field, value) =>
      && s.writer.Rebuilding? && slot < SLOTS && OneField(s.files[slot], value, field)
      && t == s.(files := s.files[slot := value])
    case FinishRebuild =>
      && s.writer.Rebuilding? && Valid(s.files) && Recorded(s.files) == Last(s.committed)
      && t == s.(writer := Rebuilt, published := s.published + [Last(s.committed)])
    case ClearDirty => s.writer.Rebuilt? && s.dirty && t == s.(dirty := false)
    case CloseRebuild => s.writer.Rebuilt? && !s.dirty && t == s.(writer := Held, version := s.version + 1)
    case BeginSet(owner) =>
      && s.writer.Held? && owner.inode != 0 && Fits(Last(s.published), owner.Id())
      && t == s.(writer := Journalling(owner), dirty := true)
    case FailJournal => (s.writer.Journalling? || s.writer.Journalled?) && t == s.(writer := Leaving)
    case CommitRecord =>
      && s.writer.Journalling?
      && t == s.(writer := Journalled(s.writer.owner),
                 committed := s.committed + [FileTable.Stored(Last(s.committed), s.writer.owner)])
    case BeginPut(index) =>
      && s.writer.Journalled? && StopAt(s.files, s.writer.owner.Id()) < SLOTS
      && index == P.At(HOME(s.writer.owner.Id()), StopAt(s.files, s.writer.owner.Id()), SLOTS)
      && t == s.(writer := Putting(s.writer.owner, index, s.files, 0, s.version % 2 == 0), version := Odd(s.version))
    case StoreField =>
      && s.writer.Putting? && s.writer.k < FIELDS && s.writer.index < SLOTS
      && var w := s.writer.(k := s.writer.k + 1);
         t == s.(writer := w,
                 files := s.files[w.index := WithField(s.files[w.index], w.owner, w.k - 1)],
                 published := s.published + if w.k == FIELDS then [FileTable.Stored(Last(s.published), w.owner)] else [])
    // A Put that found the version odd leaves it odd, for Unlock to close.
    case EndPut =>
      && s.writer.Putting? && s.writer.k == FIELDS
      && t == s.(writer := Stored, version := if s.writer.bump then s.version + 1 else s.version)
    case EndSet => s.writer.Stored? && t == s.(writer := Held, dirty := false)
    // Registering or forgetting a process opens the version without touching the file table.
    case TouchProcess => s.writer.Held? && t == s.(version := Odd(s.version))
  }

  /** The table is complete and is the newest published map. */
  ghost predicate Steady(s: State) {
    Valid(s.files) && s.published != [] && Recorded(s.files) == Last(s.published)
  }

  ghost predicate UpToDate(s: State) {
    Steady(s) && s.committed != [] && Last(s.published) == Last(s.committed)
  }

  ghost predicate Pending(s: State, owner: FileOwner) {
    && s.committed != [] && s.published != []
    && owner.inode != 0 && Fits(Last(s.published), owner.Id())
    && Last(s.committed) == FileTable.Stored(Last(s.published), owner)
  }

  ghost predicate WriterOk(s: State) {
    match s.writer
    case Free => (if s.dirty then s.version % 2 == 1 || Steady(s) else UpToDate(s))
    case Held => !s.dirty && UpToDate(s)
    case Rebuilding => s.dirty && s.version % 2 == 1
    case Rebuilt => s.version % 2 == 1 && UpToDate(s)
    case Journalling(owner) =>
      s.dirty && UpToDate(s) && owner.inode != 0 && Fits(Last(s.published), owner.Id())
    case Journalled(owner) => s.dirty && Steady(s) && Pending(s, owner)
    case Putting(owner, index, base, k, _) =>
      && s.dirty && s.version % 2 == 1 && k <= FIELDS && index < SLOTS == |base|
      && Valid(base) && owner.inode != 0 && StopAt(base, owner.Id()) < SLOTS
      && index == P.At(HOME(owner.Id()), StopAt(base, owner.Id()), SLOTS)
      && s.files == base[index := Copied(base[index], owner, k)]
      && (if k == FIELDS then UpToDate(s) else Pending(s, owner) && Recorded(base) == Last(s.published))
    case Stored => s.dirty && UpToDate(s)
    case Leaving => s.dirty && Steady(s)
  }

  ghost predicate Inv(s: State) {
    && |s.files| == SLOTS && s.published != [] && s.committed != []
    && WriterOk(s)
    && forall m | m in s.published :: m in s.committed
  }

  /** While the version is even, the table is complete. */
  lemma EvenIsSteady(s: State)
    requires Inv(s) && s.version % 2 == 0
    ensures Steady(s)
  {
  }

  lemma FieldStored(base: seq<FileOwner>, index: nat, owner: FileOwner, k: nat)
    requires index < |base| && k < FIELDS
    ensures var files := base[index := Copied(base[index], owner, k)];
            files[index := WithField(files[index], owner, k)] == base[index := Copied(base[index], owner, k + 1)]
    ensures Copied(base[index], owner, FIELDS) == owner
  {
  }

  /** One more field stored by Put; with the last, the new map is published. */
  lemma StoringKeeps(s: State, t: State)
    requires Inv(s) && Writes(s, StoreField, t)
    ensures Inv(t)
  {
    hide Valid, Recorded, StopAt, HOME, P.At;
    var w := s.writer;
    FieldStored(w.base, w.index, w.owner, w.k);
    if w.k + 1 == FIELDS { WritingStores(w.base, w.owner); }
  }

  /** Every store of a writer, and its death, keeps the invariant. */
  lemma WriterKeeps(s: State, a: Action, t: State)
    requires Inv(s) && Writes(s, a, t)
    ensures Inv(t)
  {
    if a.StoreField? {
      StoringKeeps(s, t);
    } else {
      OtherStepKeeps(s, a, t);
    }
  }

  lemma OtherStepKeeps(s: State, a: Action, t: State)
    requires Inv(s) && Writes(s, a, t) && !a.StoreField?
    ensures Inv(t)
  {
    hide Valid, Recorded, StopAt, HOME, P.At, FileTable.Stored;
    match a
    case BeginPut(index) =>
      assert s.files[index := Copied(s.files[index], s.writer.owner, 0)] == s.files;
    case _ =>
  }

  /** What readers rely on: the version never decreases, and while it stays even nothing changes. */
  lemma WriterStable(s: State, a: Action, t: State)
    requires Inv(s) && Writes(s, a, t)
    ensures s.version <= t.version && s.published <= t.published && t.readers == s.readers
    ensures s.version == t.version && s.version % 2 == 0 ==> t.files == s.files && t.published == s.published
  {
    hide Valid, Recorded, StopAt;
  }

  // ----- Steps of a reader

  function Get(m: Owners, key: Key): Option<FileOwner> {
    if key in m then Some(m[key]) else None
  }

  /** One load, or one local decision, of the reader's Lookup. */
  ghost predicate Reads(s: State, r: Reader, q: Reader)
    requires Shaped(s)
  {
    match r
    // An odd version sends the reader through Lock and Unlock, which are steps of the writer, and back here.
    case Starting(key, since) =>
      q == r || (s.version % 2 == 0 && q == Reading(key, since, s.version, 0, 0, EMPTY_OWNER))
    case Reading(key, since, seen, n, k, copy) =>
      n < SLOTS &&
      if k < FIELDS then
        q == Reading(key, since, seen, n, k + 1, WithField(copy, s.files[P.At(HOME(key), n, SLOTS)], k))
      else if copy.inode == 0 then q == Checking(key, since, seen, None)
      else if copy.Id() == key then q == Checking(key, since, seen, Some(copy))
      else if n + 1 == SLOTS then q == Checking(key, since, seen, None)
      else q == Reading(key, since, seen, n + 1, 0, copy)
    case Checking(key, since, seen, result) =>
      q == if s.version == seen then Returned(key, since, |s.published| - 1, result) else Starting(key, since)
    case Returned(_, _, _, _) => q == r
  }

  /** The result is the whole entry, or the absence, of a map published between the two. */
  ghost predicate Answers(s: State, key: Key, since: nat, until: nat, result: Option<FileOwner>) {
    exists i :: since <= i <= until < |s.published| && result == Get(s.published[i], key)
  }

  ghost predicate ReaderOk(s: State, r: Reader)
    requires Shaped(s)
  {
    && r.since < |s.published|
    && match r
       case Starting(_, _) => true
       case Reading(key, since, seen, n, k, copy) =>
         && seen <= s.version && seen % 2 == 0 && n < SLOTS && k <= FIELDS
         && (seen == s.version ==>
               && (forall j | 0 <= j < n :: !P.Stops(View(s.files)[P.At(HOME(key), j, SLOTS)], key))
               && Copied(s.files[P.At(HOME(key), n, SLOTS)], copy, k) == s.files[P.At(HOME(key), n, SLOTS)])
       case Checking(key, since, seen, result) =>
         seen <= s.version && seen % 2 == 0 && (seen == s.version ==> result == Get(Last(s.published), key))
       case Returned(key, since, until, result) => Answers(s, key, since, until, result)
  }

  /** A probe of a complete table decides as its map does. */
  lemma ProbeDecides(files: seq<FileOwner>, key: Key, n: nat)
    requires Valid(files) && n < SLOTS
    requires forall j | 0 <= j < n :: !P.Stops(View(files)[P.At(HOME(key), j, SLOTS)], key)
    ensures var slot := files[P.At(HOME(key), n, SLOTS)];
            && (slot.inode == 0 ==> Get(Recorded(files), key) == None)
            && (slot.inode != 0 && slot.Id() == key ==> Get(Recorded(files), key) == Some(slot))
            && (slot.inode != 0 && slot.Id() != key && n + 1 == SLOTS ==> Get(Recorded(files), key) == None)
  {
    hide Hash;
    var cells, p := View(files), P.At(HOME(key), n, SLOTS);
    P.ProbeFinds(cells, HOME, key);
    assert StopAt(files, key) >= n;
    if P.Stops(cells[p], key) { assert StopAt(files, key) == n; }
  }

  lemma ReaderKeeps(s: State, r: Reader, q: Reader)
    requires Inv(s) && ReaderOk(s, r) && Reads(s, r, q)
    ensures ReaderOk(s, q)
  {
    hide Valid, Recorded, View, HOME, P.At, P.Stops;
    match r
    case Reading(key, since, seen, n, k, copy) =>
      if seen == s.version && k == FIELDS {
        EvenIsSteady(s);
        ProbeDecides(s.files, key, n);
        StepOver(s.files, key, n);
      }
    case Checking(key, since, seen, result) =>
      if seen == s.version {
        assert result == Get(s.published[|s.published| - 1], key);
      }
    case _ =>
  }

  lemma StepOver(files: seq<FileOwner>, key: Key, n: nat)
    requires |files| == SLOTS && n < SLOTS
    ensures var slot := files[P.At(HOME(key), n, SLOTS)];
            slot.inode != 0 && slot.Id() != key ==> !P.Stops(View(files)[P.At(HOME(key), n, SLOTS)], key)
  {
  }

  /** A writer's step never invalidates what a reader has gathered, unless the version betrays it. */
  lemma ReaderUndisturbed(s: State, a: Action, t: State, r: Reader)
    requires Inv(s) && Inv(t) && Writes(s, a, t) && ReaderOk(s, r)
    ensures ReaderOk(t, r)
  {
    WriterStable(s, a, t);
    hide Writes, Inv, View, HOME, P.At, P.Stops;
    match r
    case Returned(key, since, until, result) =>
      var i :| since <= i <= until < |s.published| && result == Get(s.published[i], key);
      assert result == Get(t.published[i], key);
    case _ =>
  }

  // ----- Runs

  datatype Event = ByWriter(action: Action) | Call(id: nat, key: Key) | ByReader(id: nat)

  ghost predicate Init(s: State) {
    && s.version == 0 && !s.dirty && s.writer == Free && s.readers == map[]
    && |s.published| == 1 && s.committed == s.published
    && Valid(s.files) && Recorded(s.files) == s.published[0]
  }

  ghost predicate Next(s: State, e: Event, t: State)
    requires Shaped(s)
  {
    match e
    case ByWriter(a) => Writes(s, a, t)
    case Call(id, key) =>
      && (id in s.readers ==> s.readers[id].Returned?)
      && t == s.(readers := s.readers[id := Starting(key, |s.published| - 1)])
    case ByReader(id) =>
      && id in s.readers && id in t.readers
      && Reads(s, s.readers[id], t.readers[id]) && t == s.(readers := s.readers[id := t.readers[id]])
  }

  ghost predicate Safe(s: State) {
    Inv(s) && forall id | id in s.readers :: ReaderOk(s, s.readers[id])
  }

  lemma InvShape(s: State)
    requires Inv(s)
    ensures Shaped(s)
  {
  }

  lemma NextKeeps(s: State, e: Event, t: State)
    requires Safe(s) && Next(s, e, t)
    ensures Safe(t)
  {
    hide Inv, ReaderOk, Writes, Reads;
    match e
    case ByWriter(a) =>
      WriterKeeps(s, a, t);
      InvShape(t);
      assert t.readers == s.readers by { WriterStable(s, a, t); }
      forall id | id in t.readers ensures ReaderOk(t, t.readers[id]) {
        ReaderUndisturbed(s, a, t, s.readers[id]);
      }
    case Call(id, key) =>
      ReadersOnly(s, t);
      CallOk(t, key);
    case ByReader(id) =>
      ReaderKeeps(s, s.readers[id], t.readers[id]);
      ReadersOnly(s, t);
  }

  lemma ReadersOnly(s: State, t: State)
    requires Inv(s) && t == s.(readers := t.readers)
    ensures Inv(t)
    ensures forall r | ReaderOk(s, r) :: ReaderOk(t, r)
  {
  }

  lemma CallOk(s: State, key: Key)
    requires Inv(s)
    ensures ReaderOk(s, Starting(key, |s.published| - 1))
  {
  }

  ghost predicate Behaviour(states: seq<State>, events: seq<Event>) {
    && |states| == |events| + 1 && Init(states[0])
    && forall i | 0 <= i < |events| ::
         Shaped(states[i]) && Next(states[i], events[i], states[i + 1])
  }

  lemma {:induction false} BehaviourSafe(states: seq<State>, events: seq<Event>)
    requires Behaviour(states, events)
    ensures Safe(states[|events|])
  {
    hide Safe, Next;
    if events == [] {
      InitSafe(states[0]);
    } else {
      var n := |events| - 1;
      BehaviourSafe(states[..n + 1], events[..n]);
      NextKeeps(states[n], events[n], states[n + 1]);
    }
  }

  lemma InitSafe(s: State)
    requires Init(s)
    ensures Safe(s)
  {
  }

  /**
    In every interleaving, whatever writers were killed where, a lookup that has returned gives the
    whole entry, or the absence, of one map that the table held in full between its call and its return, and
    that map had been committed to the journal.
   */
  lemma LookupsAreAtomic(states: seq<State>, events: seq<Event>, id: nat)
    requires Behaviour(states, events)
    requires var s := states[|events|]; id in s.readers && s.readers[id].Returned?
    ensures var s := states[|events|];
            var r := s.readers[id];
            exists i :: && r.since <= i <= r.until < |s.published| && s.published[i] in s.committed
                        && r.result == Get(s.published[i], r.key)
  {
    BehaviourSafe(states, events);
    var s := states[|events|];
    var r := s.readers[id];
    assert ReaderOk(s, r);
    var i :| r.since <= i <= r.until < |s.published| && r.result == Get(s.published[i], r.key);
    assert s.published[i] in s.published;
  }
}
