/**
  What recovery makes of the snapshot and journal files, as functions on their
  bytes, and why a journal that traces a history of tables recovers to it after
  any torn write or lost tail.
 */
module Journal {
  import opened Types
  import opened Codec
  import opened FileTable
  import P = Probing

  /** The part of the shared mapping that recovery rebuilds. */
  datatype Memory = Memory(owners: Owners, sequence: uint64, checkpoint: uint64)

  const BLANK := Memory(map[], 0, 0)

  /** The length of a file without an incomplete record at its end. */
  function Whole(file: Bytes): (n: nat)
    ensures n <= |file| && n % RECORD_SIZE == 0 && n / RECORD_SIZE == |file| / RECORD_SIZE
  {
    |file| - |file| % RECORD_SIZE
  }

  /** What recovery sees of one whole record. */
  datatype Frame = Corrupt | Entry(sequence: uint64, owner: FileOwner)

  function FrameOf(r: Record): Frame {
    if Accepted(r) then Entry(SequenceOf(r), Unpacked(r)) else Corrupt
  }

  /** The whole records of a file; bytes short of a record at its end are ignored. */
  function Frames(file: Bytes): (frames: seq<Frame>)
    ensures |frames| == |file| / RECORD_SIZE
  {
    if |file| < RECORD_SIZE then [] else [FrameOf(file[..RECORD_SIZE])] + Frames(file[RECORD_SIZE..])
  }

  predicate CanPut(m: Owners, o: FileOwner) { o.inode != 0 && Fits(m, o.Id()) }

  /** One journal record: skipped when the snapshot already covers it. */
  function Applied(m: Memory, f: Frame): Option<Memory> {
    if f.Corrupt? then None
    else if f.sequence <= m.checkpoint then Some(m)
    else if f.sequence == m.sequence + 1 && CanPut(m.owners, f.owner)
    then Some(Memory(Stored(m.owners, f.owner), f.sequence, m.checkpoint))
    else None
  }

  /** The journal loop of Replay. */
  function LoadJournal(journal: seq<Frame>, m: Memory): Option<Memory>
    decreases |journal|
  {
    if journal == [] then Some(m)
    else match Applied(m, journal[0])
         case None => None
         case Some(next) => LoadJournal(journal[1..], next)
  }

  /** One snapshot record after the header. */
  function Loaded(m: Memory, f: Frame): Option<Memory> {
    if f.Entry? && f.sequence == m.checkpoint && CanPut(m.owners, f.owner)
    then Some(m.(owners := Stored(m.owners, f.owner)))
    else None
  }

  function LoadEntries(entries: seq<Frame>, m: Memory): Option<Memory>
    decreases |entries|
  {
    if entries == [] then Some(m)
    else match Loaded(m, entries[0])
         case None => None
         case Some(next) => LoadEntries(entries[1..], next)
  }

  /** The snapshot loop of Replay: a header record without an owner, then the entries, nothing torn. */
  function LoadSnapshot(snapshot: Option<Bytes>): Option<Memory> {
    if snapshot.None? then Some(BLANK)
    else
      var frames := Frames(snapshot.value);
      if frames == [] || |snapshot.value| % RECORD_SIZE != 0
         || frames[0].Corrupt? || frames[0].owner.inode != 0 then None
      else LoadEntries(frames[1..], Memory(map[], frames[0].sequence, frames[0].sequence))
  }

  lemma LoadEntriesCons(f: Frame, rest: seq<Frame>, m: Memory)
    ensures LoadEntries([f] + rest, m)
         == match Loaded(m, f) case None => None case Some(next) => LoadEntries(rest, next)
  {
    assert ([f] + rest)[1..] == rest;
  }

  lemma LoadJournalCons(f: Frame, rest: seq<Frame>, m: Memory)
    ensures LoadJournal([f] + rest, m)
         == match Applied(m, f) case None => None case Some(next) => LoadJournal(rest, next)
  {
    assert ([f] + rest)[1..] == rest;
  }

  lemma SnapshotHeader(data: Bytes)
    ensures LoadSnapshot(Some(data)) ==
            if |data| < RECORD_SIZE || |data| % RECORD_SIZE != 0 || !Accepted(data[..RECORD_SIZE])
               || Unpacked(data[..RECORD_SIZE]).inode != 0 then None
            else var s := SequenceOf(data[..RECORD_SIZE]);
                 LoadEntries(Frames(data[RECORD_SIZE..]), Memory(map[], s, s))
  {
    hide Accepted, Unpacked, SequenceOf, LoadEntries;
    if |data| >= RECORD_SIZE {
      FirstFrame(data, 0);
      assert data[0..] == data && data[0..RECORD_SIZE] == data[..RECORD_SIZE];
      assert Frames(data)[1..] == Frames(data[RECORD_SIZE..]);
    }
  }

  /** All of Replay. A missing journal reads as an empty one. */
  function Recover(snapshot: Option<Bytes>, journal: Bytes): Option<Memory> {
    match LoadSnapshot(snapshot)
    case None => None
    case Some(m) => LoadJournal(Frames(journal), m)
  }

  lemma NoFrames()
    ensures Frames([]) == []
  {
  }

  lemma FirstFrame(file: Bytes, offset: nat)
    requires offset + RECORD_SIZE <= |file|
    ensures Frames(file[offset..])
         == [FrameOf(file[offset..offset + RECORD_SIZE])] + Frames(file[offset + RECORD_SIZE..])
  {
    assert file[offset..][..RECORD_SIZE] == file[offset..offset + RECORD_SIZE];
    assert file[offset..][RECORD_SIZE..] == file[offset + RECORD_SIZE..];
  }

  /** An incomplete last record is not read. */
  lemma NoMoreFrames(file: Bytes, offset: nat, m: Memory)
    requires offset <= |file| < offset + RECORD_SIZE && offset % RECORD_SIZE == 0
    ensures LoadJournal(Frames(file[offset..]), m) == Some(m) && offset == |file| - |file| % RECORD_SIZE
  {
  }

  lemma {:induction false} FramesOfAppend(a: Bytes, b: Bytes)
    requires |a| % RECORD_SIZE == 0
    ensures Frames(a + b) == Frames(a) + Frames(b)
    decreases |a|
  {
    hide FrameOf;
    if a == [] {
      assert a + b == b;
    } else {
      FramesOfAppend(a[RECORD_SIZE..], b);
      assert (a + b)[..RECORD_SIZE] == a[..RECORD_SIZE];
      assert (a + b)[RECORD_SIZE..] == a[RECORD_SIZE..] + b;
    }
  }

  lemma {:induction false} FramesOfPrefix(file: Bytes, k: nat)
    requires k <= |file|
    ensures k / RECORD_SIZE <= |Frames(file)|
    ensures Frames(file[..k]) == Frames(file)[..k / RECORD_SIZE]
    decreases |file|
  {
    if k >= RECORD_SIZE {
      FramesOfPrefix(file[RECORD_SIZE..], k - RECORD_SIZE);
      assert file[..k][..RECORD_SIZE] == file[..RECORD_SIZE];
      assert file[..k][RECORD_SIZE..] == file[RECORD_SIZE..][..k - RECORD_SIZE];
    }
  }

  lemma FramesOfPacked(o: FileOwner, sequence: uint64)
    ensures Frames(Packed(o, sequence)) == [Entry(sequence, o)]
  {
    PackRoundTrip(o, sequence);
    var r := Packed(o, sequence);
    assert r[..RECORD_SIZE] == r && r[RECORD_SIZE..] == [];
  }

  // ----- Histories: history[i] is the table after update number i

  ghost predicate At(m: Memory, history: seq<Owners>) {
    m.checkpoint <= m.sequence < |history| && m.owners == history[m.sequence]
  }

  /** Every record that the snapshot does not cover takes the table to its next version. */
  ghost predicate Traces(journal: seq<Frame>, m: Memory, history: seq<Owners>)
    decreases |journal|
  {
    journal != [] ==>
      && Applied(m, journal[0]).Some?
      && At(Applied(m, journal[0]).value, history)
      && Traces(journal[1..], Applied(m, journal[0]).value, history)
  }

  function End(journal: seq<Frame>, m: Memory): uint64 {
    match LoadJournal(journal, m)
    case None => m.sequence
    case Some(end) => end.sequence
  }

  /** A tracing journal loads, to the version of its last record. */
  lemma {:induction false} TracesLoads(journal: seq<Frame>, m: Memory, history: seq<Owners>)
    requires At(m, history) && Traces(journal, m, history)
    ensures LoadJournal(journal, m).Some?
    ensures var end := LoadJournal(journal, m).value;
            At(end, history) && end.checkpoint == m.checkpoint && end.sequence >= m.sequence
    decreases |journal|
  {
    if journal != [] {
      TracesLoads(journal[1..], Applied(m, journal[0]).value, history);
    }
  }

  /** Prefixes trace too, and longer ones reach later versions. */
  lemma {:induction false} PrefixTraces(journal: seq<Frame>, k: nat, m: Memory, history: seq<Owners>)
    requires At(m, history) && Traces(journal, m, history) && k <= |journal|
    ensures Traces(journal[..k], m, history)
    ensures m.sequence <= End(journal[..k], m) <= End(journal, m)
    decreases |journal|
  {
    TracesLoads(journal, m, history);
    if k > 0 {
      PrefixTraces(journal[1..], k - 1, Applied(m, journal[0]).value, history);
      assert journal[..k][1..] == journal[1..][..k - 1];
    }
  }

  lemma {:induction false} LongerHistory(journal: seq<Frame>, m: Memory, history: seq<Owners>, next: Owners)
    requires Traces(journal, m, history)
    ensures Traces(journal, m, history + [next])
    decreases |journal|
  {
    if journal != [] {
      LongerHistory(journal[1..], Applied(m, journal[0]).value, history, next);
    }
  }

  /** Appending the next record extends the trace by one version. */
  lemma {:induction false} AppendTraces(journal: seq<Frame>, m: Memory, history: seq<Owners>, o: FileOwner)
    requires At(m, history) && Traces(journal, m, history)
    requires End(journal, m) == |history| - 1 < 0xFFFF_FFFF_FFFF_FFFF
    requires CanPut(history[|history| - 1], o)
    ensures var longer := history + [Stored(history[|history| - 1], o)];
            var appended := journal + [Entry(|history|, o)];
            Traces(appended, m, longer) && End(appended, m) == |history|
    decreases |journal|
  {
    var all := journal + [Entry(|history|, o)];
    if journal == [] {
      var next := Memory(Stored(m.owners, o), |history|, m.checkpoint);
      assert Applied(m, all[0]) == Some(next) && all[1..] == [];
      assert LoadJournal([], next) == Some(next);
    } else {
      AppendTraces(journal[1..], Applied(m, journal[0]).value, history, o);
      assert all[1..] == journal[1..] + [Entry(|history|, o)];
    }
  }

  lemma {:induction false} LoadJournalSnoc(journal: seq<Frame>, f: Frame, m: Memory)
    ensures LoadJournal(journal + [f], m)
         == match LoadJournal(journal, m) case None => None case Some(end) => Applied(end, f)
    decreases |journal|
  {
    var all := journal + [f];
    if journal == [] {
      assert all[1..] == [];
    } else {
      assert all[1..] == journal[1..] + [f];
      match Applied(m, journal[0])
      case None =>
      case Some(next) => LoadJournalSnoc(journal[1..], f, next);
    }
  }

  /** One more record is applied to what recovery yields without it. */
  lemma OneMoreApplied(snapshot: Option<Bytes>, journal: Bytes, o: FileOwner, sequence: uint64)
    requires Recover(snapshot, journal).Some? && |journal| % RECORD_SIZE == 0
    ensures Recover(snapshot, journal + Packed(o, sequence))
         == Applied(Recover(snapshot, journal).value, Entry(sequence, o))
  {
    hide Packed, Frames, LoadJournal, LoadSnapshot, Applied;
    FramesOfPacked(o, sequence);
    FramesOfAppend(journal, Packed(o, sequence));
    LoadJournalSnoc(Frames(journal), Entry(sequence, o), LoadSnapshot(snapshot).value);
  }

  lemma NextApplied(m: Memory, o: FileOwner)
    requires m.checkpoint <= m.sequence < 0xFFFF_FFFF_FFFF_FFFF
    ensures Applied(m, Entry(m.sequence + 1, o)).Some? <==> CanPut(m.owners, o)
  {
  }

  /**
    A journal stays recoverable after the next record exactly when the table can take that record:
    one with inode 0, or one more key than there are slots, would make every later recovery fail.
   */
  lemma NextRecordRecoverable(snapshot: Option<Bytes>, journal: Bytes, o: FileOwner)
    requires Recover(snapshot, journal).Some? && |journal| % RECORD_SIZE == 0
    requires Recover(snapshot, journal).value.checkpoint <= Recover(snapshot, journal).value.sequence
    requires Recover(snapshot, journal).value.sequence < 0xFFFF_FFFF_FFFF_FFFF
    ensures var end := Recover(snapshot, journal).value;
            Recover(snapshot, journal + Packed(o, end.sequence + 1)).Some? <==> CanPut(end.owners, o)
  {
    hide *;
    var end := Recover(snapshot, journal).value;
    OneMoreApplied(snapshot, journal, o, end.sequence + 1);
    NextApplied(end, o);
  }

  lemma {:induction false} FailureStays(a: seq<Frame>, b: seq<Frame>, m: Memory)
    requires LoadJournal(a, m).None?
    ensures LoadJournal(a + b, m).None?
    decreases |a|
  {
    assert (a + b)[1..] == a[1..] + b;
    match Applied(m, a[0])
    case None =>
    case Some(next) => FailureStays(a[1..], b, next);
  }

  /** One record with inode 0 at the head of a journal ends recovery for good: nothing appended later cures it. */
  lemma ZeroInodePoisons(o: FileOwner, later: Bytes)
    requires o.inode == 0
    ensures Recover(None, Packed(o, 1) + later).None?
  {
    hide Packed;
    FramesOfPacked(o, 1);
    FramesOfAppend(Packed(o, 1), later);
    FailureStays([Entry(1, o)], Frames(later), BLANK);
  }

  /** A snapshot taken at or after the end of a journal covers all of it, even one of another table. */
  lemma {:induction false} CoveredTraces(journal: seq<Frame>, m: Memory, history: seq<Owners>, covering: Memory,
                                         other: seq<Owners>)
    requires At(m, history) && Traces(journal, m, history)
    requires At(covering, other) && End(journal, m) <= covering.checkpoint
    ensures Traces(journal, covering, other) && LoadJournal(journal, covering) == Some(covering)
    decreases |journal|
  {
    if journal != [] {
      var next := Applied(m, journal[0]).value;
      TracesLoads(journal[1..], next, history);
      CoveredTraces(journal[1..], next, history, covering, other);
    }
  }

  // ----- Snapshots

  function PackedAll(owners: seq<FileOwner>, sequence: uint64): (data: Bytes)
    ensures |data| == RECORD_SIZE * |owners|
  {
    if owners == [] then []
    else Packed(owners[0], sequence) + PackedAll(owners[1..], sequence)
  }

  function SnapshotOf(owners: seq<FileOwner>, sequence: uint64): (data: Bytes)
    ensures |data| == RECORD_SIZE * (|owners| + 1)
  {
    Packed(EMPTY_OWNER, sequence) + PackedAll(owners, sequence)
  }

  lemma {:induction false} SnapshotOfSnoc(owners: seq<FileOwner>, o: FileOwner, sequence: uint64)
    ensures PackedAll(owners + [o], sequence) == PackedAll(owners, sequence) + Packed(o, sequence)
    ensures SnapshotOf(owners + [o], sequence) == SnapshotOf(owners, sequence) + Packed(o, sequence)
    decreases |owners|
  {
    hide Packed;
    var all := owners + [o];
    if owners == [] {
      assert all[1..] == [];
    } else {
      SnapshotOfSnoc(owners[1..], o, sequence);
      assert all[0] == owners[0] && all[1..] == owners[1..] + [o];
    }
  }

  lemma {:induction false} EntriesLoad(owners: seq<FileOwner>, m: Memory)
    requires StoredAll(m.owners, owners).Some?
    ensures LoadEntries(Frames(PackedAll(owners, m.checkpoint)), m)
         == Some(m.(owners := StoredAll(m.owners, owners).value))
    decreases |owners|
  {
    if owners != [] {
      FramesOfPacked(owners[0], m.checkpoint);
      FramesOfAppend(Packed(owners[0], m.checkpoint), PackedAll(owners[1..], m.checkpoint));
      EntriesLoad(owners[1..], m.(owners := Stored(m.owners, owners[0])));
    }
  }

  lemma WholeRecords(n: nat)
    ensures (RECORD_SIZE * n) % RECORD_SIZE == 0
  {
  }

  /** A snapshot gives back the owners written to it, under the sequence number they were written at. */
  lemma SnapshotRoundTrip(owners: seq<FileOwner>, sequence: uint64)
    requires StoredAll(map[], owners).Some?
    ensures LoadSnapshot(Some(SnapshotOf(owners, sequence)))
         == Some(Memory(StoredAll(map[], owners).value, sequence, sequence))
  {
    var data, head := SnapshotOf(owners, sequence), Packed(EMPTY_OWNER, sequence);
    hide Packed, PackedAll, LoadSnapshot, StoredAll, Frames, Accepted, Unpacked, SequenceOf;
    assert data[..RECORD_SIZE] == head && data[RECORD_SIZE..] == PackedAll(owners, sequence);
    hide SnapshotOf;
    PackRoundTrip(EMPTY_OWNER, sequence);
    WholeRecords(|owners| + 1);
    SnapshotHeader(data);
    EntriesLoad(owners, Memory(map[], sequence, sequence));
  }

  /** The occupied slots, in slot order: what CheckpointLocked writes. */
  function Occupied(files: seq<FileOwner>): seq<FileOwner> {
    if files == [] then []
    else Occupied(files[..|files| - 1]) +
         if files[|files| - 1].inode != 0 then [files[|files| - 1]] else []
  }

  lemma {:induction false} FoldSnoc(m: Owners, owners: seq<FileOwner>, o: FileOwner)
    ensures Fold(m, owners + [o]) == Stored(Fold(m, owners), o)
    decreases |owners|
  {
    var all := owners + [o];
    if owners == [] {
      assert all[1..] == [];
    } else {
      assert all[0] == owners[0] && all[1..] == owners[1..] + [o];
      FoldSnoc(Stored(m, owners[0]), owners[1..], o);
    }
  }

  lemma SnapshotOfNone(sequence: uint64)
    ensures SnapshotOf(Occupied([]), sequence) == Packed(EMPTY_OWNER, sequence)
  {
  }

  lemma OccupiedSnoc(files: seq<FileOwner>, i: nat, sequence: uint64)
    requires i < |files|
    ensures SnapshotOf(Occupied(files[..i + 1]), sequence)
         == SnapshotOf(Occupied(files[..i]), sequence)
            + if files[i].inode != 0 then Packed(files[i], sequence) else []
  {
    hide Packed;
    assert files[..i + 1][..i] == files[..i];
    if files[i].inode != 0 {
      SnapshotOfSnoc(Occupied(files[..i]), files[i], sequence);
    } else {
      assert Occupied(files[..i]) + [] == Occupied(files[..i]);
    }
  }

  /** The occupied slots describe the table's map, whatever their order in the table. */
  lemma {:induction false} OccupiedDescribes(files: seq<FileOwner>)
    requires P.Distinct(View(files))
    ensures Fold(map[], Occupied(files)) == P.Contents(View(files))
    ensures forall o | o in Occupied(files) :: o.inode != 0
  {
    if files == [] {
      assert View(files) == [];
    } else {
      var init, last := files[..|files| - 1], files[|files| - 1];
      assert View(files) == View(init) + [View(files)[|files| - 1]];
      P.ContentsOfSnoc(View(init), View(files)[|files| - 1]);
      OccupiedDescribes(init);
      FoldSnoc(map[], Occupied(init), last);
      if last.inode == 0 { assert Occupied(init) + [] == Occupied(init); }
    }
  }

  /** The snapshot of a valid table loads as that table's map, at the sequence number it carries. */
  lemma SnapshotOfTable(files: seq<FileOwner>, sequence: uint64)
    requires Valid(files)
    ensures LoadSnapshot(Some(SnapshotOf(Occupied(files), sequence)))
         == Some(Memory(Recorded(files), sequence, sequence))
  {
    OccupiedDescribes(files);
    ContentsFiled(files);
    StoredAllExactly(map[], Occupied(files));
    SnapshotRoundTrip(Occupied(files), sequence);
  }
}
