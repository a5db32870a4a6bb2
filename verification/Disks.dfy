/**
  The two files as the writers leave them, together with everything that stable
  storage may still hold instead, and what each file operation does to recovery.
 */
module Disks {
  import opened Types
  import opened Codec
  import opened FileTable
  import opened Journal
  import J = Journal

  /** Contents a file may have on stable storage: any prefix at least as long as its synced part. */
  datatype Version = Version(bytes: Bytes, synced: nat)

  /**
    `snapshot` and `journal` are what a process reads. After a power cut the snapshot may instead be
    one of `olderSnapshots`, and the journal a prefix of one of `staleJournals`.
   */
  datatype Disk = Disk(
    snapshot: Option<Bytes>, olderSnapshots: set<Option<Bytes>>,
    journal: Bytes, synced: nat, staleJournals: set<Version>)
  {
    function Snapshots(): set<Option<Bytes>> { olderSnapshots + {snapshot} }

    function Current(): Version { Version(journal, synced) }

    function Journals(): set<Version> { staleJournals + {Current()} }

    function Append(data: Bytes): Disk { this.(journal := journal + data) }

    function SyncJournal(): Disk { this.(synced := |journal|, staleJournals := {}) }

    function RenameSnapshot(data: Bytes): Disk {
      this.(snapshot := Some(data), olderSnapshots := Snapshots())
    }

    function SyncDirectory(): Disk { this.(olderSnapshots := {}) }

    /** Shortens the journal; until the next sync the longer one may come back. */
    function Truncate(size: nat): Disk
      requires size <= |journal|
    {
      this.(journal := journal[..size], synced := if synced <= size then synced else size,
            staleJournals := Journals())
    }

    ghost predicate JournalMaySurvive(j: Bytes) {
      exists v | v in Journals() :: v.synced <= |j| <= |v.bytes| && v.bytes[..|j|] == j
    }

    /** `s` and `j` are contents that the two files may have after a power cut. */
    ghost predicate MaySurvive(s: Option<Bytes>, j: Bytes) { s in Snapshots() && JournalMaySurvive(j) }
  }

  ghost predicate SnapshotOk(s: Option<Bytes>, history: seq<Owners>) {
    LoadSnapshot(s).Some? && J.At(LoadSnapshot(s).value, history)
    && LoadSnapshot(s).value.checkpoint == LoadSnapshot(s).value.sequence
  }

  /** Snapshot and journal fit each other, and their synced part reaches version `durable`. */
  ghost predicate PairOk(s: Option<Bytes>, v: Version, history: seq<Owners>, durable: nat) {
    && SnapshotOk(s, history)
    && v.synced <= |v.bytes|
    && Traces(Frames(v.bytes), LoadSnapshot(s).value, history)
    && durable <= End(Frames(v.bytes[..v.synced]), LoadSnapshot(s).value)
  }

  ghost predicate Reaches(s: Option<Bytes>, journal: Bytes, version: nat) {
    LoadSnapshot(s).Some? && End(Frames(journal), LoadSnapshot(s).value) == version
  }

  /** Behind the snapshot `s`, the journals tell `history`. */
  ghost predicate Tells(d: Disk, s: Option<Bytes>, history: seq<Owners>, durable: nat) {
    && 0 < |history| <= 0x1_0000_0000_0000_0000
    && (forall v | v in d.Journals() :: PairOk(s, v, history, durable))
    && Reaches(s, d.journal, |history| - 1)
  }

  /** What the files tell behind snapshots that a power cut may bring back. */
  type Others = map<Option<Bytes>, seq<Owners>>

  /**
    The crash invariant of the files: see KillRecovers and PowerCutRecovers for what it buys. Nothing is
    promised for an older snapshot that is not among the others.
   */
  ghost predicate DiskOk(d: Disk, history: seq<Owners>, durable: nat, others: Others) {
    && Tells(d, d.snapshot, history, durable)
    && forall s | s in others :: s in d.olderSnapshots && |others[s]| == |history| && Tells(d, s, others[s], durable)
  }

  ghost predicate Covers(s: Option<Bytes>, version: nat) {
    LoadSnapshot(s).Some? && LoadSnapshot(s).value.sequence == version
  }

  lemma At(d: Disk, s: Option<Bytes>, history: seq<Owners>, durable: nat)
    requires Tells(d, s, history, durable)
    ensures PairOk(s, d.Current(), history, durable) && Reaches(s, d.journal, |history| - 1)
  {
    assert d.Current() in d.Journals();
  }

  lemma SyncedPart(v: Version, m: Memory, history: seq<Owners>)
    requires J.At(m, history) && Traces(Frames(v.bytes), m, history) && v.synced <= |v.bytes|
    ensures m.sequence <= End(Frames(v.bytes[..v.synced]), m) <= End(Frames(v.bytes), m) < |history|
  {
    hide Frames, Traces, J.At, End;
    ReachesVersion(Frames(v.bytes), m, history);
    FramesOfPrefix(v.bytes, v.synced);
    PrefixTraces(Frames(v.bytes), v.synced / RECORD_SIZE, m, history);
  }

  lemma ReachesVersion(journal: seq<Frame>, m: Memory, history: seq<Owners>)
    requires J.At(m, history) && Traces(journal, m, history)
    ensures m.sequence <= End(journal, m) < |history|
  {
    TracesLoads(journal, m, history);
  }

  lemma Loads(s: Option<Bytes>, v: Version, history: seq<Owners>, durable: nat)
    requires PairOk(s, v, history, durable)
    ensures Recover(s, v.bytes).Some? && J.At(Recover(s, v.bytes).value, history)
    ensures Recover(s, v.bytes).value.sequence == End(Frames(v.bytes), LoadSnapshot(s).value) >= durable
  {
    TracesLoads(Frames(v.bytes), LoadSnapshot(s).value, history);
    SyncedPart(v, LoadSnapshot(s).value, history);
  }

  /** Recovery from `s` and the journal as it is yields exactly the newest table. */
  lemma TellsNewest(d: Disk, s: Option<Bytes>, history: seq<Owners>, durable: nat)
    requires Tells(d, s, history, durable)
    ensures Recover(s, d.journal).Some?
    ensures var m := Recover(s, d.journal).value;
            m.owners == history[|history| - 1] && m.sequence == |history| - 1 >= m.checkpoint
    ensures durable < |history| <= 0x1_0000_0000_0000_0000
  {
    At(d, s, history, durable);
    hide Tells;
    Loads(s, d.Current(), history, durable);
  }

  /** After a kill, recovery yields exactly the newest table. */
  lemma KillRecovers(d: Disk, history: seq<Owners>, durable: nat, others: Others)
    requires DiskOk(d, history, durable, others)
    ensures Recover(d.snapshot, d.journal).Some?
    ensures var m := Recover(d.snapshot, d.journal).value;
            m.owners == history[|history| - 1] && m.sequence == |history| - 1 >= m.checkpoint
  {
    hide Tells, Recover;
    TellsNewest(d, d.snapshot, history, durable);
  }

  lemma Bounds(d: Disk, history: seq<Owners>, durable: nat, others: Others)
    requires DiskOk(d, history, durable, others)
    ensures durable < |history| <= 0x1_0000_0000_0000_0000
  {
    hide Tells, Recover;
    TellsNewest(d, d.snapshot, history, durable);
  }

  /** Neither pass of recovery fails. */
  lemma Loadable(d: Disk, history: seq<Owners>, durable: nat, others: Others)
    requires DiskOk(d, history, durable, others)
    ensures LoadSnapshot(d.snapshot).Some? && LoadJournal(Frames(d.journal), LoadSnapshot(d.snapshot).value).Some?
    ensures Recover(d.snapshot, d.journal) == LoadJournal(Frames(d.journal), LoadSnapshot(d.snapshot).value)
    ensures d.snapshot.None? ==> LoadSnapshot(d.snapshot) == Some(BLANK)
  {
    KillRecovers(d, history, durable, others);
    hide DiskOk, LoadJournal, Frames;
  }

  // ----- Power cuts

  /** Whatever survives of the journal, recovery behind `s` yields some version, and none older than the last durable one. */
  lemma TellsAfterCut(d: Disk, s: Option<Bytes>, history: seq<Owners>, durable: nat, j: Bytes)
    requires Tells(d, s, history, durable) && d.JournalMaySurvive(j)
    ensures Recover(s, j).Some?
    ensures var m := Recover(s, j).value;
            durable <= m.sequence < |history| && m.owners == history[m.sequence]
    ensures PairOk(s, Version(j, |j|), history, Recover(s, j).value.sequence)
  {
    var v :| v in d.Journals() && v.synced <= |j| <= |v.bytes| && v.bytes[..|j|] == j;
    assert PairOk(s, v, history, durable);
    hide Tells;
    CutPair(s, v, history, durable, |j|);
  }

  lemma CutPair(s: Option<Bytes>, v: Version, history: seq<Owners>, durable: nat, k: nat)
    requires PairOk(s, v, history, durable) && v.synced <= k <= |v.bytes|
    ensures var j := v.bytes[..k];
            && Recover(s, j).Some? && durable <= Recover(s, j).value.sequence < |history|
            && Recover(s, j).value.owners == history[Recover(s, j).value.sequence]
            && PairOk(s, Version(j, |j|), history, Recover(s, j).value.sequence)
  {
    var m, j := LoadSnapshot(s).value, v.bytes[..k];
    hide Frames, Traces, LoadSnapshot, LoadJournal;
    CutTraces(v, m, history, k);
    TracesLoads(Frames(j), m, history);
    assert j[..|j|] == j;
  }

  lemma CutTraces(v: Version, m: Memory, history: seq<Owners>, k: nat)
    requires J.At(m, history) && Traces(Frames(v.bytes), m, history) && v.synced <= k <= |v.bytes|
    ensures Traces(Frames(v.bytes[..k]), m, history)
    ensures End(Frames(v.bytes[..v.synced]), m) <= End(Frames(v.bytes[..k]), m)
  {
    hide Frames, Traces, End, J.At;
    var j := v.bytes[..k];
    FramesOfPrefix(v.bytes, k);
    PrefixTraces(Frames(v.bytes), k / RECORD_SIZE, m, history);
    assert v.bytes[..v.synced] == j[..v.synced];
    FramesOfPrefix(j, v.synced);
    PrefixTraces(Frames(j), v.synced / RECORD_SIZE, m, history);
  }

  /** What the files tell behind a snapshot that a power cut may leave. */
  function Behind(d: Disk, history: seq<Owners>, others: Others, s: Option<Bytes>): seq<Owners>
    requires s == d.snapshot || s in others
  {
    if s == d.snapshot then history else others[s]
  }

  /** After a power cut, recovery yields some version of what is told, and none older than the last durable one. */
  lemma PowerCutRecovers(d: Disk, history: seq<Owners>, durable: nat, others: Others, s: Option<Bytes>, j: Bytes)
    requires DiskOk(d, history, durable, others) && d.MaySurvive(s, j) && (s == d.snapshot || s in others)
    ensures Recover(s, j).Some?
    ensures var m, told := Recover(s, j).value, Behind(d, history, others, s);
            durable <= m.sequence < |history| == |told| && m.owners == told[m.sequence]
  {
    hide Tells, Recover, PairOk;
    TellsAfterCut(d, s, Behind(d, history, others, s), durable, j);
  }

  /** Recovery yields this table, under this number. */
  ghost predicate Recovers(s: Option<Bytes>, j: Bytes, table: Owners, version: nat) {
    Recover(s, j).Some? && Recover(s, j).value.sequence == version && Recover(s, j).value.owners == table
  }

  /** It does so whatever a power cut leaves of the journal. */
  ghost predicate AlwaysRecovers(d: Disk, s: Option<Bytes>, table: Owners, version: nat) {
    forall j | d.JournalMaySurvive(j) :: Recovers(s, j, table, version)
  }

  /** It does so from the synced bytes of each journal that may be found. */
  ghost predicate SyncedRecovers(d: Disk, s: Option<Bytes>, table: Owners, version: nat) {
    forall v | v in d.Journals() :: v.synced <= |v.bytes| && Recovers(s, v.bytes[..v.synced], table, version)
  }

  lemma EndIs(s: Option<Bytes>, j: Bytes)
    requires Recover(s, j).Some?
    ensures LoadSnapshot(s).Some? && End(Frames(j), LoadSnapshot(s).value) == Recover(s, j).value.sequence
  {
    hide LoadSnapshot, Frames, LoadJournal;
  }

  /** One journal: its synced bytes recover the newest table if and only if they reach its version. */
  lemma SyncedPair(s: Option<Bytes>, v: Version, history: seq<Owners>, durable: nat, table: Owners)
    requires PairOk(s, v, history, durable) && 0 < |history|
    ensures Recovers(s, v.bytes[..v.synced], table, |history| - 1) <==>
              PairOk(s, v, history, |history| - 1) && history[|history| - 1] == table
  {
    hide Recover, Frames, Traces, LoadSnapshot, End, SnapshotOk;
    CutPair(s, v, history, durable, v.synced);
    EndIs(s, v.bytes[..v.synced]);
  }

  lemma SyncedTells(d: Disk, s: Option<Bytes>, history: seq<Owners>, durable: nat, table: Owners)
    requires Tells(d, s, history, durable)
    ensures SyncedRecovers(d, s, table, |history| - 1) <==>
              Tells(d, s, history, |history| - 1) && history[|history| - 1] == table
  {
    hide PairOk, Recovers, Reaches, Disk.JournalMaySurvive;
    var n := |history| - 1;
    assert d.Current() in d.Journals();
    forall v | v in d.Journals()
      ensures v.synced <= |v.bytes|
      ensures Recovers(s, v.bytes[..v.synced], table, n) <==> PairOk(s, v, history, n) && history[n] == table
    {
      SyncedSurvives(d, s, v, history, durable);
      SyncedPair(s, v, history, durable, table);
    }
  }

  /** Behind one snapshot, a table survives every power cut if and only if it is told there, and on stable storage already. */
  lemma NewestBehind(d: Disk, s: Option<Bytes>, history: seq<Owners>, durable: nat, table: Owners)
    requires Tells(d, s, history, durable)
    ensures AlwaysRecovers(d, s, table, |history| - 1) <==> SyncedRecovers(d, s, table, |history| - 1)
    ensures SyncedRecovers(d, s, table, |history| - 1) <==>
              Tells(d, s, history, |history| - 1) && history[|history| - 1] == table
  {
    hide Recovers, Disk.JournalMaySurvive, Tells;
    SyncedTells(d, s, history, durable, table);
    assert history != [] by { TellsNewest(d, s, history, durable); }
    if AlwaysRecovers(d, s, table, |history| - 1) {
      forall v | v in d.Journals()
        ensures v.synced <= |v.bytes| && Recovers(s, v.bytes[..v.synced], table, |history| - 1)
      {
        SyncedSurvives(d, s, v, history, durable);
      }
    }
    if Tells(d, s, history, |history| - 1) && history[|history| - 1] == table {
      forall j | d.JournalMaySurvive(j) ensures Recovers(s, j, table, |history| - 1) {
        NewestAfterCut(d, s, history, j);
      }
    }
  }

  lemma SyncedSurvives(d: Disk, s: Option<Bytes>, v: Version, history: seq<Owners>, durable: nat)
    requires Tells(d, s, history, durable) && v in d.Journals()
    ensures PairOk(s, v, history, durable) && v.synced <= |v.bytes| && d.JournalMaySurvive(v.bytes[..v.synced])
  {
    assert PairOk(s, v, history, durable);
  }

  lemma NewestAfterCut(d: Disk, s: Option<Bytes>, history: seq<Owners>, j: Bytes)
    requires history != [] && Tells(d, s, history, |history| - 1) && d.JournalMaySurvive(j)
    ensures Recovers(s, j, history[|history| - 1], |history| - 1)
  {
    hide Tells, Recover;
    TellsAfterCut(d, s, history, |history| - 1, j);
  }

  /**
    The newest table survives every power cut if and only if it is on stable storage already, behind each snapshot that
    may be found: the synced bytes of each journal that may be found recover it. That is, the newest version is
    durable and no older snapshot tells of another table.
   */
  lemma NewestSurvives(d: Disk, history: seq<Owners>, durable: nat, others: Others)
    requires DiskOk(d, history, durable, others) && others.Keys == d.olderSnapshots
    ensures 0 < |history|
    ensures var n := |history| - 1;
            && ((forall s, j | d.MaySurvive(s, j) :: Recovers(s, j, history[n], n))
                <==> (forall s | s in d.Snapshots() :: SyncedRecovers(d, s, history[n], n)))
            && ((forall s | s in d.Snapshots() :: SyncedRecovers(d, s, history[n], n))
                <==> DiskOk(d, history, n, others) && SameNewest(others, history))
  {
    Bounds(d, history, durable, others);
    NewestEverywhere(d, history, durable, others);
    hide DiskOk, AlwaysRecovers, SyncedRecovers, Disk.MaySurvive, Recovers, SameNewest;
    AlwaysEverywhere(d, history[|history| - 1], |history| - 1);
  }

  /** Older snapshots tell of no other newest table. */
  ghost predicate SameNewest(others: Others, history: seq<Owners>)
    requires history != []
  {
    forall s | s in others :: others[s] != [] && others[s][|others[s]| - 1] == history[|history| - 1]
  }

  lemma NewestEverywhere(d: Disk, history: seq<Owners>, durable: nat, others: Others)
    requires DiskOk(d, history, durable, others) && others.Keys == d.olderSnapshots && history != []
    ensures var n := |history| - 1;
            && (forall s | s in d.Snapshots() :: AlwaysRecovers(d, s, history[n], n) <==> SyncedRecovers(d, s, history[n], n))
            && ((forall s | s in d.Snapshots() :: SyncedRecovers(d, s, history[n], n))
                <==> DiskOk(d, history, n, others) && SameNewest(others, history))
  {
    hide Tells, AlwaysRecovers, SyncedRecovers;
    var n := |history| - 1;
    NewestBehind(d, d.snapshot, history, durable, history[n]);
    forall s | s in others
      ensures AlwaysRecovers(d, s, history[n], n) <==> SyncedRecovers(d, s, history[n], n)
      ensures SyncedRecovers(d, s, history[n], n) <==> Tells(d, s, others[s], n) && others[s][n] == history[n]
    {
      NewestBehind(d, s, others[s], durable, history[n]);
    }
    if forall s | s in d.Snapshots() :: SyncedRecovers(d, s, history[n], n) {
      assert d.snapshot in d.Snapshots() && forall s | s in others :: s in d.Snapshots();
    }
  }

  lemma AlwaysEverywhere(d: Disk, table: Owners, version: nat)
    ensures (forall s, j | d.MaySurvive(s, j) :: Recovers(s, j, table, version))
       <==> (forall s | s in d.Snapshots() :: AlwaysRecovers(d, s, table, version))
  {
    hide Recovers, Disk.JournalMaySurvive;
    if forall s, j | d.MaySurvive(s, j) :: Recovers(s, j, table, version) {
      forall s, j | s in d.Snapshots() && d.JournalMaySurvive(j) ensures Recovers(s, j, table, version) {
        assert d.MaySurvive(s, j);
      }
    }
  }

  lemma {:induction false} ShorterHistory(journal: seq<Frame>, m: Memory, history: seq<Owners>, n: nat)
    requires J.At(m, history) && Traces(journal, m, history) && End(journal, m) < n <= |history|
    ensures J.At(m, history[..n]) && Traces(journal, m, history[..n])
    decreases |journal|
  {
    TracesLoads(journal, m, history);
    if journal != [] {
      ShorterHistory(journal[1..], Applied(m, journal[0]).value, history, n);
    }
  }

  /** What a power cut leaves satisfies the invariant again, for what was told up to the surviving version. */
  lemma PowerCutRestarts(d: Disk, history: seq<Owners>, durable: nat, others: Others, s: Option<Bytes>, j: Bytes)
    requires DiskOk(d, history, durable, others) && d.MaySurvive(s, j) && (s == d.snapshot || s in others)
    ensures Recover(s, j).Some?
    ensures var survivor, told := Recover(s, j).value.sequence, Behind(d, history, others, s);
            && durable <= survivor < |history| == |told| && Recover(s, j).value.owners == told[survivor]
            && DiskOk(Disk(s, {}, j, |j|, {}), told[..survivor + 1], survivor, map[])
  {
    hide Tells, Disk.MaySurvive, Recover, PairOk;
    PowerCutRecovers(d, history, durable, others, s, j);
    var told := Behind(d, history, others, s);
    assert d.JournalMaySurvive(j) by { Parted(d, s, j); }
    TellsAfterCut(d, s, told, durable, j);
    TellsNewest(d, s, told, durable);
    RestartTells(s, j, told, Recover(s, j).value.sequence);
  }

  lemma Parted(d: Disk, s: Option<Bytes>, j: Bytes)
    requires d.MaySurvive(s, j)
    ensures d.JournalMaySurvive(j)
  {
  }

  lemma RestartTells(s: Option<Bytes>, j: Bytes, history: seq<Owners>, n: nat)
    requires Recover(s, j).Some? && n == Recover(s, j).value.sequence
    requires PairOk(s, Version(j, |j|), history, n) && |history| <= 0x1_0000_0000_0000_0000
    ensures n < |history| && Tells(Disk(s, {}, j, |j|, {}), s, history[..n + 1], n)
  {
    hide Recover, PairOk;
    var d := Disk(s, {}, j, |j|, {});
    RestartedPair(s, Version(j, |j|), history, n);
    assert d.Journals() == {Version(j, |j|)};
  }

  lemma RestartedPair(s: Option<Bytes>, v: Version, history: seq<Owners>, n: nat)
    requires Recover(s, v.bytes).Some? && v.synced == |v.bytes|
    requires PairOk(s, v, history, n) && n == Recover(s, v.bytes).value.sequence
    ensures n < |history| && PairOk(s, v, history[..n + 1], n) && Reaches(s, v.bytes, n)
  {
    hide Frames, Traces, LoadSnapshot;
    Loads(s, v, history, n);
    assert v.bytes[..v.synced] == v.bytes;
    ShorterHistory(Frames(v.bytes), LoadSnapshot(s).value, history, n + 1);
  }

  // ----- Appending to the journal

  /** A record cut short is not read: nothing has changed yet. */
  lemma TornTells(d: Disk, tail: Bytes, s: Option<Bytes>, history: seq<Owners>, durable: nat)
    requires Tells(d, s, history, durable) && |d.journal| % RECORD_SIZE == 0 && |tail| < RECORD_SIZE
    ensures Tells(d.Append(tail), s, history, durable)
  {
    var next := d.Append(tail);
    TornFrames(d.journal, tail, d.synced);
    hide Frames, LoadSnapshot, Traces, End;
    forall v | v in next.Journals() ensures PairOk(s, v, history, durable) {
      assert PairOk(s, if v in d.staleJournals then v else d.Current(), history, durable);
    }
  }

  lemma TornFrames(journal: Bytes, tail: Bytes, synced: nat)
    requires |journal| % RECORD_SIZE == 0 && |tail| < RECORD_SIZE
    ensures Frames(journal + tail) == Frames(journal)
    ensures synced <= |journal| ==> (journal + tail)[..synced] == journal[..synced]
  {
    FramesOfAppend(journal, tail);
    assert Frames(journal) + [] == Frames(journal);
  }

  lemma TornPairs(d: Disk, tail: Bytes, history: seq<Owners>, durable: nat, others: Others)
    requires DiskOk(d, history, durable, others) && |d.journal| % RECORD_SIZE == 0 && |tail| < RECORD_SIZE
    ensures DiskOk(d.Append(tail), history, durable, others)
  {
    hide Tells;
    TornTells(d, tail, d.snapshot, history, durable);
    forall s | s in others ensures Tells(d.Append(tail), s, others[s], durable) {
      TornTells(d, tail, s, others[s], durable);
    }
  }

  lemma LongerPair(s: Option<Bytes>, v: Version, history: seq<Owners>, durable: nat, next: Owners)
    requires PairOk(s, v, history, durable)
    ensures PairOk(s, v, history + [next], durable)
  {
    LongerHistory(Frames(v.bytes), LoadSnapshot(s).value, history, next);
  }

  lemma AppendedFrame(journal: Bytes, o: FileOwner, sequence: uint64)
    requires |journal| % RECORD_SIZE == 0
    ensures Frames(journal + Packed(o, sequence)) == Frames(journal) + [Entry(sequence, o)]
  {
    hide *;
    FramesOfPacked(o, sequence);
    FramesOfAppend(journal, Packed(o, sequence));
  }

  /** The record follows those there are, and the synced part stays what it was. */
  lemma AppendedVersion(v: Version, o: FileOwner, sequence: uint64)
    requires |v.bytes| % RECORD_SIZE == 0 && v.synced <= |v.bytes|
    ensures var after := v.bytes + Packed(o, sequence);
            Frames(after) == Frames(v.bytes) + [Entry(sequence, o)] && after[..v.synced] == v.bytes[..v.synced]
  {
    hide *;
    AppendedFrame(v.bytes, o, sequence);
  }

  lemma AtLonger(m: Memory, history: seq<Owners>, next: Owners)
    requires J.At(m, history)
    ensures J.At(m, history + [next])
  {
  }

  lemma AppendedPair(s: Option<Bytes>, v: Version, history: seq<Owners>, durable: nat, o: FileOwner)
    requires PairOk(s, v, history, durable) && Reaches(s, v.bytes, |history| - 1)
    requires |v.bytes| % RECORD_SIZE == 0 && 0 < |history| < 0x1_0000_0000_0000_0000
    requires CanPut(history[|history| - 1], o)
    ensures var longer, after := history + [Stored(history[|history| - 1], o)], v.bytes + Packed(o, |history|);
            PairOk(s, Version(after, v.synced), longer, durable) && Reaches(s, after, |history|)
  {
    var m := LoadSnapshot(s).value;
    hide Packed, Frames, Traces, CanPut, LoadSnapshot, End, J.At, Stored;
    AppendedVersion(v, o, |history|);
    AppendTraces(Frames(v.bytes), m, history, o);
    AtLonger(m, history, Stored(history[|history| - 1], o));
  }

  lemma RecordTells(d: Disk, s: Option<Bytes>, history: seq<Owners>, durable: nat, o: FileOwner)
    requires Tells(d, s, history, durable)
    requires |d.journal| % RECORD_SIZE == 0 && |history| < 0x1_0000_0000_0000_0000
    requires CanPut(history[|history| - 1], o)
    ensures Tells(d.Append(Packed(o, |history|)), s, history + [Stored(history[|history| - 1], o)], durable)
  {
    hide PairOk, Reaches, Packed, CanPut, Stored;
    var after, next := d.Append(Packed(o, |history|)), Stored(history[|history| - 1], o);
    At(d, s, history, durable);
    AppendedPair(s, d.Current(), history, durable, o);
    forall v | v in after.Journals() ensures PairOk(s, v, history + [next], durable) {
      if v in d.staleJournals { LongerPair(s, v, history, durable, next); }
    }
  }

  predicate TakesBehind(others: Others, s: Option<Bytes>, o: FileOwner) {
    s in others && others[s] != [] && CanPut(others[s][|others[s]| - 1], o)
  }

  function Longer(others: Others, s: Option<Bytes>, o: FileOwner): seq<Owners>
    requires TakesBehind(others, s, o)
  {
    others[s] + [Stored(others[s][|others[s]| - 1], o)]
  }

  /** What the others tell after one more record, as far as they can take it. */
  function Grown(others: Others, o: FileOwner): Others {
    map s | s in others && TakesBehind(others, s, o) :: Longer(others, s, o)
  }

  /** The last byte of a record commits it: the history grows by one version, and so does each other that can take it. */
  lemma RecordCommits(d: Disk, history: seq<Owners>, durable: nat, others: Others, o: FileOwner)
    requires DiskOk(d, history, durable, others)
    requires |d.journal| % RECORD_SIZE == 0 && |history| < 0x1_0000_0000_0000_0000
    requires CanPut(history[|history| - 1], o)
    ensures DiskOk(d.Append(Packed(o, |history|)), history + [Stored(history[|history| - 1], o)], durable, Grown(others, o))
  {
    hide Tells, Packed, CanPut, Stored;
    RecordTells(d, d.snapshot, history, durable, o);
    forall s | s in Grown(others, o)
      ensures Tells(d.Append(Packed(o, |history|)), s, Grown(others, o)[s], durable)
    {
      RecordTells(d, s, others[s], durable, o);
    }
  }

  /** Recovery behind a snapshot goes on after the next record if and only if the table there can take it. */
  lemma RecordReadable(d: Disk, s: Option<Bytes>, history: seq<Owners>, durable: nat, o: FileOwner)
    requires Tells(d, s, history, durable) && |d.journal| % RECORD_SIZE == 0 && |history| < 0x1_0000_0000_0000_0000
    ensures Recover(s, d.Append(Packed(o, |history|)).journal).Some? <==> CanPut(history[|history| - 1], o)
  {
    hide Tells, Recover, CanPut, Packed;
    TellsNewest(d, s, history, durable);
    NextRecordRecoverable(s, d.journal, o);
  }

  /** A record that the table cannot take ends recovery. */
  lemma Poisons(d: Disk, history: seq<Owners>, durable: nat, others: Others, o: FileOwner)
    requires DiskOk(d, history, durable, others) && |d.journal| % RECORD_SIZE == 0
    requires |history| < 0x1_0000_0000_0000_0000 && !CanPut(history[|history| - 1], o)
    ensures Recover(d.snapshot, d.Append(Packed(o, |history|)).journal).None?
  {
    hide Tells, Recover, CanPut, Packed;
    RecordReadable(d, d.snapshot, history, durable, o);
  }

  // ----- Syncing and trimming the journal

  lemma SyncTells(d: Disk, s: Option<Bytes>, history: seq<Owners>, durable: nat)
    requires Tells(d, s, history, durable)
    ensures Tells(d.SyncJournal(), s, history, |history| - 1)
  {
    var after := d.SyncJournal();
    At(d, s, history, durable);
    assert after.Journals() == {after.Current()};
    assert after.Current().bytes[..after.Current().synced] == d.journal;
  }

  /** A synced journal makes the newest version durable, behind whatever snapshot. */
  lemma SyncMakesDurable(d: Disk, history: seq<Owners>, durable: nat, others: Others)
    requires DiskOk(d, history, durable, others)
    ensures DiskOk(d.SyncJournal(), history, |history| - 1, others)
  {
    hide Tells;
    Bounds(d, history, durable, others);
    SyncTells(d, d.snapshot, history, durable);
    forall s | s in others ensures Tells(d.SyncJournal(), s, others[s], |history| - 1) {
      SyncTells(d, s, others[s], durable);
    }
  }

  lemma TrimTells(d: Disk, s: Option<Bytes>, history: seq<Owners>, durable: nat)
    requires Tells(d, s, history, durable)
    ensures Tells(d.Truncate(Whole(d.journal)), s, history, durable)
  {
    hide Whole, Frames;
    var after := d.Truncate(Whole(d.journal));
    At(d, s, history, durable);
    TrimmedVersion(d);
    assert after.Journals() == d.Journals() + {after.Current()};
    hide LoadSnapshot, Traces, End;
    forall v | v in after.Journals() ensures PairOk(s, v, history, durable) {
    }
  }

  /** Without the torn tail the same records are read, and as many of them are synced. */
  lemma TrimmedVersion(d: Disk)
    requires d.synced <= |d.journal|
    ensures var after := d.Truncate(Whole(d.journal)).Current();
            && Frames(after.bytes) == Frames(d.journal) && after.synced <= |after.bytes|
            && Frames(after.bytes[..after.synced]) == Frames(d.journal[..d.synced])
  {
    var n := Whole(d.journal);
    var k := if d.synced <= n then d.synced else n;
    FramesOfPrefix(d.journal, n);
    assert d.journal[..n][..k] == d.journal[..k];
    FramesOfPrefix(d.journal, k);
    FramesOfPrefix(d.journal, d.synced);
    SameRecords(|d.journal|, d.synced);
    hide Frames;
  }

  lemma SameRecords(n: nat, k: nat)
    requires k <= n
    ensures (if k <= n - n % RECORD_SIZE then k else n - n % RECORD_SIZE) / RECORD_SIZE == k / RECORD_SIZE
  {
  }

  /** Dropping a torn tail changes nothing that recovery sees. */
  lemma TrimKeeps(d: Disk, history: seq<Owners>, durable: nat, others: Others)
    requires DiskOk(d, history, durable, others)
    ensures DiskOk(d.Truncate(Whole(d.journal)), history, durable, others)
  {
    hide Tells, Whole;
    TrimTells(d, d.snapshot, history, durable);
    forall s | s in others ensures Tells(d.Truncate(Whole(d.journal)), s, others[s], durable) {
      TrimTells(d, s, others[s], durable);
    }
  }

  // ----- Replacing the snapshot

  /** The newest version replaced. */
  function ReplacedBy(history: seq<Owners>, next: Owners): seq<Owners>
    requires history != []
  {
    history[..|history| - 1] + [next]
  }

  /** A snapshot under the number of the newest version covers every journal that may be around. */
  lemma CoveredPair(was: Option<Bytes>, s: Option<Bytes>, v: Version, history: seq<Owners>, durable: nat,
                    other: seq<Owners>)
    requires PairOk(was, v, history, durable) && SnapshotOk(s, other) && |other| == |history|
    requires Covers(s, |history| - 1)
    ensures PairOk(s, v, other, |history| - 1) && Reaches(s, v.bytes, |history| - 1)
  {
    var m, covering := LoadSnapshot(was).value, LoadSnapshot(s).value;
    hide Frames, Traces, LoadSnapshot;
    ReachesVersion(Frames(v.bytes), m, history);
    CoveredTraces(Frames(v.bytes), m, history, covering, other);
    SyncedPart(v, covering, other);
  }

  lemma CoveredTells(d: Disk, was: Option<Bytes>, s: Option<Bytes>, history: seq<Owners>, durable: nat, other: seq<Owners>)
    requires Tells(d, was, history, durable) && SnapshotOk(s, other) && |other| == |history|
    requires Covers(s, |history| - 1)
    ensures Tells(d, s, other, |history| - 1)
  {
    hide PairOk, Reaches, SnapshotOk, Covers;
    forall v | v in d.Journals() ensures PairOk(s, v, other, |history| - 1) {
      CoveredPair(was, s, v, history, durable, other);
    }
    At(d, was, history, durable);
    CoveredPair(was, s, d.Current(), history, durable, other);
  }

  lemma LessDurable(d: Disk, s: Option<Bytes>, history: seq<Owners>, durable: nat, less: nat)
    requires Tells(d, s, history, durable) && less <= durable
    ensures Tells(d, s, history, less)
  {
    forall v | v in d.Journals() ensures PairOk(s, v, history, less) {
      assert PairOk(s, v, history, durable);
    }
  }

  /** The journals tell what they tell, whatever happens to the directory. */
  lemma SameJournals(d: Disk, after: Disk, s: Option<Bytes>, history: seq<Owners>, durable: nat)
    requires Tells(d, s, history, durable)
    requires after == d.(snapshot := after.snapshot, olderSnapshots := after.olderSnapshots)
    ensures Tells(after, s, history, durable)
  {
    assert after.Journals() == d.Journals();
  }

  /** With a snapshot of another table in place, recovery yields that table, whether the journal is still there or not. */
  lemma ReplacementRecovers(d: Disk, files: seq<FileOwner>, history: seq<Owners>, durable: nat, others: Others)
    requires DiskOk(d, history, durable, others) && Valid(files)
    ensures durable < |history| <= 0x1_0000_0000_0000_0000
    ensures var n := |history| - 1;
            var data, m := SnapshotOf(Occupied(files), n), Some(Memory(Recorded(files), n, n));
            && Recover(Some(data), d.journal) == m && Recover(Some(data), []) == m
  {
    hide DiskOk, Tells, SnapshotOf, Occupied, Recorded, Valid, Recover, LoadSnapshot;
    Bounds(d, history, durable, others);
    TellsNow(d, history, durable, others);
    SnapshotOfTable(files, |history| - 1);
    CoversAll(d, d.snapshot, history, durable, Some(SnapshotOf(Occupied(files), |history| - 1)), Recorded(files));
  }

  lemma TellsNow(d: Disk, history: seq<Owners>, durable: nat, others: Others)
    requires DiskOk(d, history, durable, others)
    ensures Tells(d, d.snapshot, history, durable)
  {
  }

  lemma CoversAll(d: Disk, was: Option<Bytes>, history: seq<Owners>, durable: nat, s: Option<Bytes>, table: Owners)
    requires Tells(d, was, history, durable) && LoadSnapshot(s) == Some(Memory(table, |history| - 1, |history| - 1))
    ensures Recover(s, d.journal) == LoadSnapshot(s) && Recover(s, []) == LoadSnapshot(s)
  {
    var n := |history| - 1;
    At(d, was, history, durable);
    hide Tells, LoadSnapshot, Traces, Frames;
    CoveredTraces(Frames(d.journal), LoadSnapshot(was).value, history, Memory(table, n, n), ReplacedBy(history, table));
    NoFrames();
  }

  /**
    Renaming a snapshot under the number of the newest version: a kill finds the newest version replaced by its
    table; a power cut before the directory is synced may bring back what was told behind the one before.
   */
  lemma RenameKeeps(d: Disk, data: Bytes, history: seq<Owners>, durable: nat, others: Others, next: Owners)
    requires DiskOk(d, history, durable, others) && history != []
    requires SnapshotOk(Some(data), ReplacedBy(history, next)) && Covers(Some(data), |history| - 1)
    ensures DiskOk(d.RenameSnapshot(data), ReplacedBy(history, next), durable, others[d.snapshot := history])
  {
    hide Tells, SnapshotOk, Covers;
    var after, now, before := d.RenameSnapshot(data), ReplacedBy(history, next), others[d.snapshot := history];
    Bounds(d, history, durable, others);
    CoveredTells(d, d.snapshot, Some(data), history, durable, now);
    LessDurable(d, Some(data), now, |history| - 1, durable);
    SameJournals(d, after, Some(data), now, durable);
    forall s | s in before ensures Tells(after, s, before[s], durable) {
      SameJournals(d, after, s, before[s], durable);
    }
  }

  /** Once the rename itself is durable, so is the newest version. */
  lemma DirectorySyncMakesDurable(d: Disk, history: seq<Owners>, durable: nat, others: Others)
    requires DiskOk(d, history, durable, others) && 0 < |history| && Covers(d.snapshot, |history| - 1)
    ensures DiskOk(d.SyncDirectory(), history, |history| - 1, map[])
  {
    At(d, d.snapshot, history, durable);
    hide Tells, Covers;
    CoveredTells(d, d.snapshot, d.snapshot, history, durable, history);
    SameJournals(d, d.SyncDirectory(), d.snapshot, history, |history| - 1);
  }

  /** A journal may be emptied once a durable snapshot covers it. */
  lemma EmptyingKeeps(d: Disk, history: seq<Owners>, durable: nat, others: Others)
    requires DiskOk(d, history, durable, others) && d.olderSnapshots == {}
    requires 0 < |history| && Covers(d.snapshot, |history| - 1)
    ensures DiskOk(d.Truncate(0), history, durable, others)
  {
    var after := d.Truncate(0);
    Bounds(d, history, durable, others);
    At(d, d.snapshot, history, durable);
    assert after.Journals() == d.Journals() + {Version([], 0)};
    NoFrames();
    assert PairOk(d.snapshot, Version([], 0), history, durable);
  }
}
