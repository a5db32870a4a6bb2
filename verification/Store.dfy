/**
  The ownership store: journal first, then publish, and now and then compact into a
  snapshot. Every store and every file operation is followed by a kill point, which
  must be a possible end of a killed process; the kill points passed so far are kept in `moments`.
 */
module Store {
  import opened Types
  import opened Codec
  import opened FileTable
  import opened Journal
  import opened Disks
  import opened Runs
  import P = Probing

  const CHECKPOINT_INTERVAL: uint64 := 16384

  predicate SameAttributes(a: FileOwner, b: FileOwner) {
    SameBirth(a, b) && a.uid == b.uid && a.gid == b.gid && a.mode == b.mode
  }

  /** What SetLocked decides from the table alone. */
  datatype Verdict = Conflict | Unchanged | NoSpace | Write

  function Judge(m: Owners, owner: FileOwner, previous: Option<FileOwner>): Verdict {
    var entry := EntryFor(m, owner.Id());
    if !Fits(m, owner.Id()) then NoSpace
    else if previous.Some? && !SameAttributes(entry, previous.value) then Conflict
    else if entry.inode != 0 && entry == owner then Unchanged
    else Write
  }

  /** A conditional Set is meant for the record it names: it conflicts with any other, in whichever attribute they differ. */
  predicate Differs(entry: FileOwner, previous: FileOwner) {
    || entry.birthSeconds != previous.birthSeconds || entry.birthNanoseconds != previous.birthNanoseconds
    || entry.uid != previous.uid || entry.gid != previous.gid || entry.mode != previous.mode
  }

  /** What each verdict says about the table. */
  lemma JudgedExactly(m: Owners, owner: FileOwner, previous: Option<FileOwner>)
    requires Filed(m)
    ensures var key := owner.Id();
            var verdict := Judge(m, owner, previous);
            && (verdict.NoSpace? <==> key !in m && |m.Keys| >= SLOTS)
            && (verdict.Conflict? <==>
                  !verdict.NoSpace? && previous.Some? && Differs(if key in m then m[key] else EMPTY_OWNER, previous.value))
            && (verdict.Unchanged? <==> !verdict.Conflict? && key in m && m[key] == owner)
  {
  }

  lemma Refusals(m: Owners, owner: FileOwner, previous: Option<FileOwner>)
    ensures !Fits(m, owner.Id()) ==> Judge(m, owner, previous).NoSpace?
    ensures previous.Some? && Differs(EntryFor(m, owner.Id()), previous.value) ==>
              Judge(m, owner, previous).Conflict? || Judge(m, owner, previous).NoSpace?
  {
  }

  /** Changing a record that is as the caller has read it is a write, and no conflict. */
  lemma ReadAndChanged(m: Owners, owner: FileOwner, previous: FileOwner)
    requires Filed(m) && previous.Id() == owner.Id() && owner.Id() in m && m[owner.Id()] == previous && previous != owner
    ensures Judge(m, owner, Some(previous)).Write?
  {
  }

  lemma Joined(d: Disk, record: Record, i: nat, j: nat)
    requires i <= j <= RECORD_SIZE
    ensures d.Append(record[..i]).Append(record[i..j]) == d.Append(record[..j])
    ensures record[..RECORD_SIZE] == record
  {
    assert record[..i] + record[i..j] == record[..j];
    assert d.journal + record[..i] + record[i..j] == d.journal + record[..j];
  }

  // ----- Steps that are under way

  /** A step that may still fail. */
  predicate Unfinished(e: Event) {
    match e
    case Returned(_, _, _) => false
    case Killed(_) => true
    case Compacted(ok) => !ok
    case Rewritten(_, ok) => !ok
    case PowerLost => false
  }

  /** The files tell what they told, or less of what older snapshots told as those are gone. */
  ghost predicate TellsOn(was: Moment, now: Moment) {
    && now.history == was.history && was.durable <= now.durable
    && now.image.disk.olderSnapshots <= was.image.disk.olderSnapshots
    && (forall s | s in now.others :: s in was.others && now.others[s] == was.others[s])
    && forall s | s in was.others && s in now.image.disk.olderSnapshots :: s in now.others
  }

  ghost predicate SameTelling(was: Moment, now: Moment) {
    && now.history == was.history && now.others == was.others && was.durable <= now.durable
    && now.image.disk.olderSnapshots == was.image.disk.olderSnapshots
  }

  /** A step under way is still that step when the files go on telling what they told. */
  lemma StepOn(start: Moment, e: Event, was: Moment, now: Moment)
    requires Step(start, e, was) && Unfinished(e) && TellsOn(was, now) && CrashOk(now)
    ensures Step(start, e, now)
  {
    hide CrashOk, Advances, CanPut, Stored, Fold;
  }

  /** A step that has not done anything yet. */
  lemma StepBegins(start: Moment, e: Event)
    requires CrashOk(start) && Unfinished(e)
    ensures Step(start, e, start)
  {
    CrashBounds(start);
    hide CrashOk, Stored, Fold;
    forall s | s in start.others ensures exists h :: IsTold(start, h) && Advances(e, h, start.others[s]) {
      assert IsTold(start, start.others[s]);
      assert CrashOk(start) ==> |start.others[s]| == |start.history| by { OthersAlike(start, s); }
      assert Advances(e, start.others[s], start.others[s]);
    }
  }

  lemma OthersAlike(m: Moment, s: Option<Bytes>)
    requires s in m.others
    ensures CrashOk(m) ==> |m.others[s]| == |m.history| && s in m.image.disk.olderSnapshots
  {
    hide Tells, Clean;
  }

  /** The record is complete: the histories go on by one version. */
  lemma StepRecorded(start: Moment, owner: FileOwner, now: Moment)
    requires CrashOk(start) && CrashOk(now) && start.durable <= now.durable
    requires now.history == start.history + [Stored(Last(start.history), owner)] && start.history != []
    requires now.others == Grown(start.others, owner)
    requires now.image.disk.olderSnapshots == start.image.disk.olderSnapshots
    ensures Step(start, Killed(owner), now)
  {
    hide CrashOk, CanPut, Stored;
    forall s | s in now.others
      ensures exists h :: IsTold(start, h) && Advances(Killed(owner), h, now.others[s])
    {
      assert IsTold(start, start.others[s]) && Advances(Killed(owner), start.others[s], now.others[s]);
    }
  }

  /** The history with its newest version replaced, if the table was rebuilt from the files found. */
  function Target(history: seq<Owners>, live: Option<seq<FileOwner>>): seq<Owners>
    requires history != []
  {
    if live.None? then history else ReplacedBy(history, Fold(map[], live.value))
  }

  /** A snapshot of the newest version, or of its replacement, has been renamed into place. */
  lemma StepRenamed(start: Moment, e: Event, was: Moment, now: Moment, live: Option<seq<FileOwner>>)
    requires Step(start, e, was) && Unfinished(e) && CrashOk(now) && was.history != [] && was.durable <= now.durable
    requires if live.Some? then e == Rewritten(live.value, false) && was.history == start.history else !e.Rewritten?
    requires now.history == Target(was.history, live)
    requires now.others == was.others[was.image.disk.snapshot := was.history]
    requires now.image.disk.olderSnapshots == was.image.disk.Snapshots()
    ensures Step(start, e, now)
  {
    hide CrashOk, CanPut, Stored, Fold;
    assert IsTold(start, start.history) && Advances(e, start.history, was.history);
    forall s | s in now.others ensures exists h :: IsTold(start, h) && Advances(e, h, now.others[s]) {
      if s != was.image.disk.snapshot { assert s in was.others; }
    }
  }

  /** The end of a Set, a checkpoint or a replacement. */
  lemma StepEnds(start: Moment, e: Event, now: Moment, ended: Event)
    requires Step(start, e, now) && now.history != []
    requires match ended
             case Returned(owner, durably, ok) =>
               && e == Killed(owner)
               && (ok && durably && now.history != start.history ==> now.durable == |now.history| - 1)
               && (ok ==> owner.Id() in Last(now.history) && Last(now.history)[owner.Id()] == owner)
             case Compacted(ok) => e == Compacted(false)
             case Rewritten(live, ok) =>
               e == Rewritten(live, false) && (ok ==> now.history == Target(start.history, Some(live)))
             case _ => ended == e
    requires Settles(ended) ==> now.durable == |now.history| - 1 && now.others == map[]
    ensures Step(start, ended, now)
  {
    hide CrashOk, CanPut, Stored, Fold;
    forall s | s in now.others ensures exists h :: IsTold(start, h) && Advances(ended, h, now.others[s]) {
      var h :| IsTold(start, h) && Advances(e, h, now.others[s]);
      assert Advances(ended, h, now.others[s]);
    }
  }

  /** The snapshot written of a table replaces the newest version by it, or leaves it as it is. */
  lemma SnapshotTells(files: seq<FileOwner>, history: seq<Owners>, live: Option<seq<FileOwner>>, data: Bytes)
    requires Valid(files) && 0 < |history| <= 0x1_0000_0000_0000_0000
    requires data == SnapshotOf(Occupied(files), |history| - 1)
    requires Recorded(files) == Last(Target(history, live))
    ensures Target(history, live) == ReplacedBy(history, Recorded(files))
    ensures SnapshotOk(Some(data), Target(history, live)) && Covers(Some(data), |history| - 1)
  {
    hide SnapshotOf, Occupied, Recorded, Valid, LoadSnapshot, Fold;
    SnapshotOfTable(files, |history| - 1);
  }

  /** An acknowledged Set has its record in the table, be it that it was there. */
  lemma SetEnds(start: Moment, owner: FileOwner, durably: bool, previous: Option<FileOwner>, ok: bool, now: Moment)
    requires Step(start, Killed(owner), now) && start.history != [] && now.history != []
    requires var verdict := Judge(Last(start.history), owner, previous);
             if verdict.Write? then
               && (now.history == start.history || now.history == start.history + [Stored(Last(start.history), owner)])
               && (ok ==> |now.history| > |start.history| && (durably ==> now.durable == |now.history| - 1))
             else ok == verdict.Unchanged? && now.history == start.history
    ensures Step(start, Returned(owner, durably, ok), now)
  {
    hide Step, Stored;
    assert ok ==> owner.Id() in Last(now.history) && Last(now.history)[owner.Id()] == owner by {
      StoredIsThere(Last(start.history), owner);
    }
    hide Judge;
    StepEnds(start, Killed(owner), now, Returned(owner, durably, ok));
  }

  lemma StoredIsThere(m: Owners, owner: FileOwner)
    ensures owner.Id() in Stored(m, owner) && Stored(m, owner)[owner.Id()] == owner
  {
  }

  class OwnershipStore {
    const shared: Shared
    var sequence: uint64
    var checkpoint: uint64
    var dirty: bool
    var attached: bool
    var disk: Disk
    // The model's account of the past, which no step reads: the versions of the table, the number of the
    // last durable one, what older snapshots tell, and the kill points.
    var history: seq<Owners>
    var durable: nat
    var others: Others
    var moments: seq<Moment>

    /** A process that finds what others have left: shared memory and files at some instant. */
    constructor At(m: Moment)
      requires CrashOk(m)
      ensures Survives() && moments == [] && Now() == m && fresh(shared) && fresh(shared.files)
    {
      shared := new Shared.Holding(m.image.files);
      sequence, checkpoint, dirty, attached := m.image.sequence, m.image.checkpoint, m.image.dirty, m.image.attached;
      disk, history, durable, others, moments := m.image.disk, m.history, m.durable, m.others, [];
    }

    function Now(): Moment
      reads this, shared.files
    {
      Moment(Image(disk, shared.files[..], sequence, checkpoint, dirty, attached), history, durable, others)
    }

    /** The crash invariant holds now. */
    ghost predicate Survives()
      reads this, shared.files
    {
      CrashOk(Now())
    }

    ghost predicate Ready()
      reads this, shared.files
    {
      Survives() && Clean(Now().image, history)
    }

    /** Every kill point since those of `mark` was a possible end of the step `e` begun at `start`. */
    ghost predicate Within(mark: seq<Moment>, start: Moment, e: Event)
      reads this
    {
      mark <= moments && forall i | |mark| <= i < |moments| :: Step(start, e, moments[i])
    }

    /** So would this instant be. */
    ghost predicate Alive(mark: seq<Moment>, start: Moment, e: Event)
      reads this, shared.files
    {
      Within(mark, start, e) && Step(start, e, Now()) && Unfinished(e) && Survives()
    }

    method KillPoint(ghost mark: seq<Moment>, ghost start: Moment, ghost e: Event)
      requires Within(mark, start, e) && Step(start, e, Now())
      modifies this`moments
      ensures Within(mark, start, e) && moments == old(moments) + [Now()] && Now() == old(Now())
    {
      hide Step;
      moments := moments + [Now()];
    }

    /** A kill point after something that the files do not show. */
    method Pass(ghost was: Moment, ghost mark: seq<Moment>, ghost start: Moment, ghost e: Event)
      requires Within(mark, start, e) && Step(start, e, was) && Unfinished(e) && SameTelling(was, Now()) && Survives()
      modifies this`moments
      ensures Alive(mark, start, e) && Now() == old(Now())
    {
      hide Step, CrashOk;
      StepOn(start, e, was, Now());
      KillPoint(mark, start, e);
    }

    /** The journal holds a record that no recovery can take: the store cannot be rebuilt any more. */
    ghost predicate Poisoned()
      reads this
    {
      dirty && Recover(disk.snapshot, disk.journal).None?
    }

    /** The files tell what they did when the step began. */
    ghost predicate Untouched(start: Moment)
      reads this, shared.files
    {
      && history == start.history && others == start.others && start.durable <= durable
      && disk.olderSnapshots == start.image.disk.olderSnapshots
    }

    /** They go on by the record that the step was to write. */
    ghost predicate Extended(start: Moment, owner: FileOwner)
      reads this, shared.files
    {
      && start.history != [] && history == start.history + [Stored(Last(start.history), owner)]
      && others == Grown(start.others, owner) && disk.olderSnapshots == start.image.disk.olderSnapshots
    }

    /** WriteAll on the journal: any number of short writes, ended by an error or by the last byte. */
    method WriteRecord(owner: FileOwner, ghost mark: seq<Moment>, ghost start: Moment) returns (ok: bool)
      requires Alive(mark, start, Killed(owner)) && Untouched(start) && CrashOk(start)
      requires dirty && |disk.journal| % RECORD_SIZE == 0
      requires sequence == |history| - 1 < 0xFFFF_FFFF_FFFF_FFFF
      modifies this`disk, this`history, this`others, this`moments
      ensures Within(mark, start, Killed(owner))
      ensures CanPut(Last(start.history), owner) ==>
                Alive(mark, start, Killed(owner)) && if ok then Extended(start, owner) else Untouched(start)
      ensures ok ==> disk == old(disk).Append(Packed(owner, sequence + 1))
      ensures !CanPut(Last(start.history), owner) ==>
                history == start.history && if ok then Poisoned() else Alive(mark, start, Killed(owner)) && Untouched(start)
    {
      hide DiskOk, Step, Packed, Clean, CanPut, Recover, Grown, Stored;
      var base, before, told := disk, history, others;
      ghost var e := Killed(owner);
      var record := Pack(owner, sequence + 1);
      var written := 0;
      Joined(base, record, 0, 0);
      assert DiskOk(base, before, durable, told);
      assert base.journal + record[..0] == base.journal;
      while written < RECORD_SIZE
        invariant written <= RECORD_SIZE && Within(mark, start, e)
        invariant written < RECORD_SIZE || CanPut(Last(before), owner) ==> Alive(mark, start, e)
        invariant written == RECORD_SIZE && !CanPut(Last(before), owner) ==> Poisoned() && history == before
        invariant written < RECORD_SIZE ==> Untouched(start)
        invariant written == RECORD_SIZE && CanPut(Last(before), owner) ==> Extended(start, owner)
        invariant disk == base.Append(record[..written])
      {
        var n: int := *;
        if n <= 0 || n > RECORD_SIZE - written { return false; }
        Joined(base, record, written, written + n);
        ghost var was := Now();
        disk := disk.Append(record[written..written + n]);
        written := written + n;
        if written < RECORD_SIZE {
          TornPairs(base, record[..written], before, durable, told);
          Pass(was, mark, start, e);
        } else if CanPut(Last(before), owner) {
          RecordCommits(base, before, durable, told, owner);
          history, others := before + [Stored(Last(before), owner)], Grown(told, owner);
          StepRecorded(start, owner, Now());
          KillPoint(mark, start, e);
        } else {
          Poisons(base, before, durable, told, owner);
        }
      }
      return true;
    }

    /** The loop at the head of SetLocked; SLOTS when no slot is vacant or the key's. */
    method Available(key: Key) returns (index: nat)
      requires shared.files.Length == SLOTS
      ensures var s := StopAt(shared.files[..], key);
              index == if s < SLOTS then P.At(HOME(key), s, SLOTS) else SLOTS
    {
      hide Hash;
      ghost var cells := View(shared.files[..]);
      index := Hash(key.device, key.inode);
      var n := 0;
      while n < SLOTS
        invariant n <= SLOTS && index < SLOTS
        invariant n < SLOTS ==> index == P.At(HOME(key), n, SLOTS)
        invariant StopAt(shared.files[..], key) == P.Stop(cells, HOME(key), key, n)
      {
        var slot := shared.files[index];
        if slot.inode == 0 || slot.Id() == key {
          assert P.Stops(cells[index], key);
          return index;
        }
        assert cells[index] == P.Live(slot.Id(), slot);
        n, index := n + 1, Next(index);
      }
      return SLOTS;
    }

    /** What the first vacant or matching slot says about the request. */
    method Prescan(owner: FileOwner, previous: Option<FileOwner>) returns (verdict: Verdict)
      requires Valid(shared.files[..])
      ensures verdict == Judge(Recorded(shared.files[..]), owner, previous)
    {
      assert shared.files.Length == SLOTS;
      hide Valid, Recorded, StopAt, Hash, View;
      var index := Available(owner.Id());
      StoppedProbe(shared.files[..], owner.Id());
      if index == SLOTS { return NoSpace; }
      var slot := shared.files[index];
      return if previous.Some? && !SameAttributes(slot, previous.value) then Conflict
             else if slot.inode != 0 && SameAttributes(slot, owner) then Unchanged
             else Write;
    }

    /**
      The end of a write: count it, publish it, and declare the table current. Put takes every record but
      one with inode 0.
     */
    method Publish(owner: FileOwner, ghost mark: seq<Moment>, ghost start: Moment) returns (ok: bool)
      requires Within(mark, start, Killed(owner)) && dirty && |disk.journal| % RECORD_SIZE == 0 && start.history != []
      requires Valid(shared.files[..]) && checkpoint <= sequence
      requires sequence == |start.history| - 1 < 0xFFFF_FFFF_FFFF_FFFF && Recorded(shared.files[..]) == Last(start.history)
      requires Fits(Last(start.history), owner.Id())
      requires if owner.inode == 0 then Poisoned() else Alive(mark, start, Killed(owner)) && Extended(start, owner)
      modifies this`sequence, this`dirty, this`moments, shared, shared.files
      ensures ok <==> owner.inode != 0
      ensures Within(mark, start, Killed(owner))
      ensures if ok then Alive(mark, start, Killed(owner)) && Ready() && !dirty && sequence == old(sequence) + 1
              else Poisoned()
      ensures Noticed(old(shared.version), old(shared.files[..]), shared.version, shared.files[..])
    {
      hide DiskOk, Step, Valid, Recover, Stored, Grown;
      ghost var e, was := Killed(owner), Now();
      sequence := sequence + 1;
      if owner.inode != 0 { Pass(was, mark, start, e); }
      ok := shared.Put(owner);
      if !ok { return; }
      Pass(was, mark, start, e);
      dirty := false;
      Pass(was, mark, start, e);
    }

    /** The journal part of SetLocked, up to the optional sync. */
    method Journalled(owner: FileOwner, durably: bool, ghost mark: seq<Moment>, ghost start: Moment) returns (ok: bool)
      requires Ready() && |history| < 0x1_0000_0000_0000_0000 && Fits(Last(history), owner.Id())
      requires Alive(mark, start, Killed(owner)) && Untouched(start) && CrashOk(start)
      modifies this`dirty, this`disk, this`history, this`others, this`durable, this`moments
      ensures dirty && Within(mark, start, Killed(owner))
      ensures owner.inode == 0 ==> history == start.history && (Poisoned() || (!ok && Alive(mark, start, Killed(owner))))
      ensures owner.inode != 0 ==> Alive(mark, start, Killed(owner)) && (Untouched(start) || Extended(start, owner))
      ensures ok ==> |disk.journal| % RECORD_SIZE == 0 && (owner.inode != 0 ==> Extended(start, owner))
      ensures ok && owner.inode == 0 ==> Poisoned()
      ensures ok && durably && owner.inode != 0 ==> durable == |history| - 1
    {
      hide DiskOk, Step, Valid, Packed, Recover, Stored, Grown;
      ghost var was := Now();
      dirty := true;
      Pass(was, mark, start, Killed(owner));
      var openedJournal: bool := *;
      if !openedJournal { return false; }
      ok := WriteRecord(owner, mark, start);
      if !ok || !durably { return; }
      if owner.inode != 0 {
        ok := Fdatasync(mark, start, Killed(owner));
      } else {
        ok := *;
        if ok { disk := disk.SyncJournal(); }
      }
    }

    /** A successful sync of the journal makes everything up to now durable; a failed one promises nothing. */
    method Fdatasync(ghost mark: seq<Moment>, ghost start: Moment, ghost e: Event) returns (ok: bool)
      requires Alive(mark, start, e)
      modifies this`disk, this`durable, this`moments
      ensures Alive(mark, start, e)
      ensures disk.journal == old(disk.journal) && disk.olderSnapshots == old(disk.olderSnapshots)
      ensures disk.snapshot == old(disk.snapshot)
      ensures if ok then durable == |history| - 1 else disk == old(disk) && durable == old(durable)
    {
      hide DiskOk, Step, Valid;
      Bounds(disk, history, durable, others);
      ok := *;
      if ok {
        SyncMakesDurable(disk, history, durable, others);
        ghost var was := Now();
        disk, durable := disk.SyncJournal(), |history| - 1;
        Pass(was, mark, start, e);
      }
    }

    /**
      SetLocked. `durably` asks for the record to be synced; `previous` makes the call conditional.
      A failed call leaves the history as it was, or extended by its own record.
     */
    method SetLocked(owner: FileOwner, durably: bool, previous: Option<FileOwner>,
                     ghost mark: seq<Moment>, ghost start: Moment) returns (ok: bool)
      requires Ready() && !dirty && |history| < 0x1_0000_0000_0000_0000
      requires Alive(mark, start, Killed(owner)) && Untouched(start) && CrashOk(start)
      modifies this, shared, shared.files
      ensures attached == old(attached) && Within(mark, start, Killed(owner))
      ensures Alive(mark, start, Killed(owner))
              || (owner.inode == 0 && Poisoned() && !ok && history == old(history))
      ensures var verdict := Judge(Last(old(history)), owner, previous);
              if verdict.Write? then
                && (history == old(history) || history == old(history) + [Stored(Last(old(history)), owner)])
                && (ok ==> owner.inode != 0 && |history| > |old(history)| && Ready() && !dirty
                           && (durably ==> durable == |history| - 1)
                           && sequence - checkpoint < CHECKPOINT_INTERVAL)
              else
                ok == verdict.Unchanged? && Now() == old(Now()) && moments == old(moments)
      ensures Noticed(old(shared.version), old(shared.files[..]), shared.version, shared.files[..])
    {
      hide DiskOk, Step, Valid, Recover, Stored, Grown;
      ContentsFiled(shared.files[..]);
      var verdict := Prescan(owner, previous);
      if !verdict.Write? { return verdict.Unchanged?; }
      ok := Journalled(owner, durably, mark, start);
      if !ok { return; }
      ok := Publish(owner, mark, start);
      if ok && sequence - checkpoint >= CHECKPOINT_INTERVAL {
        ok := CheckpointLocked(None, mark, start, Killed(owner));
      }
    }

    /** Adds a record to the buffer, flushing it to the file first when it is full. */
    static method Buffered(data: Bytes, buffer: Bytes, record: Record)
      returns (ok: bool, data': Bytes, buffer': Bytes)
      ensures ok ==> data' + buffer' == data + buffer + record
    {
      data', buffer', ok := data, buffer, true;
      if |buffer| + RECORD_SIZE > 65536 {
        ok := *;
        if !ok { return; }
        data', buffer' := data + buffer, [];
      }
      buffer' := buffer' + record;
      assert data' + buffer' == data + buffer + record;
    }

    /** Writes the header and every occupied slot to snapshot.tmp through a 64 KiB buffer. */
    method WriteSnapshot() returns (ok: bool, data: Bytes)
      requires Valid(shared.files[..])
      ensures ok ==> data == SnapshotOf(Occupied(shared.files[..]), sequence)
    {
      assert shared.files.Length == SLOTS;
      hide Valid, Packed, SnapshotOf, Occupied;
      var buffer: Bytes := Pack(EMPTY_OWNER, sequence);
      data := [];
      assert data + buffer == buffer;
      SnapshotOfNone(sequence);
      ghost var files := shared.files[..];
      for i := 0 to SLOTS
        invariant data + buffer == SnapshotOf(Occupied(files[..i]), sequence)
      {
        OccupiedSnoc(files, i, sequence);
        if shared.files[i].inode != 0 {
          var record := Pack(shared.files[i], sequence);
          ok, data, buffer := Buffered(data, buffer, record);
          if !ok { return; }
        }
      }
      assert files[..SLOTS] == files;
      data := data + buffer;
      ok := *;
    }

    /**
      What a checkpoint needs: the table is the newest version, or, for a first opener only, it has just been
      rebuilt from the files it found.
     */
    ghost predicate Writable(live: Option<seq<FileOwner>>, start: Moment, e: Event)
      reads this, shared.files
    {
      && Survives() && Valid(shared.files[..]) && history != []
      && sequence == |history| - 1 && checkpoint <= sequence && |disk.journal| % RECORD_SIZE == 0
      && Recorded(shared.files[..]) == Last(Target(history, live))
      && if live.Some? then e == Rewritten(live.value, false) && history == start.history && !attached
         else !e.Rewritten? && Clean(Now().image, history)
    }

    /** CheckpointLocked: the snapshot first, durably, and only then an empty journal. */
    method CheckpointLocked(live: Option<seq<FileOwner>>, ghost mark: seq<Moment>, ghost start: Moment, ghost e: Event)
      returns (ok: bool)
      requires Writable(live, start, e) && Alive(mark, start, e)
      modifies this`checkpoint, this`disk, this`history, this`others, this`durable, this`moments
      ensures Alive(mark, start, e) && old(durable) <= durable
      ensures history == old(history) || history == Target(old(history), live)
      ensures live.None? || ok ==> Ready()
      ensures ok ==> history == Target(old(history), live) && checkpoint == sequence && disk.journal == []
                     && durable == |history| - 1 && others == map[]
    {
      hide DiskOk, Step, Valid, Recorded, Clean, Fold;
      ok := SnapshotPublished(live, mark, start, e);
      if !ok { return; }
      ok := EmptyJournal(mark, start, e);
    }

    /** Up to the directory sync after the rename. */
    method SnapshotPublished(live: Option<seq<FileOwner>>, ghost mark: seq<Moment>, ghost start: Moment, ghost e: Event)
      returns (ok: bool)
      requires Writable(live, start, e) && Alive(mark, start, e)
      modifies this`disk, this`history, this`others, this`durable, this`moments
      ensures Alive(mark, start, e) && old(durable) <= durable && disk.journal == old(disk.journal)
      ensures history == old(history) || history == Target(old(history), live)
      ensures live.None? || ok ==> Ready()
      ensures ok ==> history == Target(old(history), live) && disk.olderSnapshots == {} && others == map[]
                     && Covers(disk.snapshot, |history| - 1) && durable == |history| - 1
    {
      hide DiskOk, Step, Valid, Recorded, SnapshotOf, Occupied, Covers, Fold;
      Bounds(disk, history, durable, others);
      var written, data := WriteSnapshot();
      var renamed: bool := *;
      if !written || !renamed { return false; }
      RenameSnapshot(data, live, mark, start, e);
      ok := *;
      if ok {
        DirectorySyncMakesDurable(disk, history, durable, others);
        ghost var was := Now();
        disk, durable, others := disk.SyncDirectory(), |history| - 1, map[];
        StepOn(start, e, was, Now());
        KillPoint(mark, start, e);
      }
    }

    /** The rename: at once for a kill; a power cut may bring back the snapshot before it until the directory is synced. */
    method RenameSnapshot(data: Bytes, live: Option<seq<FileOwner>>, ghost mark: seq<Moment>, ghost start: Moment, ghost e: Event)
      requires Writable(live, start, e) && Alive(mark, start, e)
      requires data == SnapshotOf(Occupied(shared.files[..]), sequence)
      modifies this`disk, this`history, this`others, this`moments
      ensures Alive(mark, start, e) && Ready() && disk == old(disk).RenameSnapshot(data)
      ensures history == Target(old(history), live) && others == old(others)[old(disk).snapshot := old(history)]
      ensures Covers(disk.snapshot, |history| - 1) && durable < |history|
    {
      hide DiskOk, Step, Valid, Recorded, SnapshotOf, Occupied, Covers, SnapshotOk, Fold;
      Bounds(disk, history, durable, others);
      SnapshotTells(shared.files[..], history, live, data);
      RenameKeeps(disk, data, history, durable, others, Recorded(shared.files[..]));
      ghost var was := Now();
      others := others[disk.snapshot := history];
      disk, history := disk.RenameSnapshot(data), Target(history, live);
      StepRenamed(start, e, was, Now(), live);
      KillPoint(mark, start, e);
    }

    /** The rest of CheckpointLocked: adopt the new checkpoint, then truncate the journal. */
    method EmptyJournal(ghost mark: seq<Moment>, ghost start: Moment, ghost e: Event) returns (ok: bool)
      requires Ready() && Alive(mark, start, e)
      requires disk.olderSnapshots == {} && Covers(disk.snapshot, |history| - 1) && durable == |history| - 1
      modifies this`checkpoint, this`disk, this`durable, this`moments
      ensures Ready() && Alive(mark, start, e) && durable == |history| - 1
      ensures ok ==> checkpoint == sequence && disk.journal == []
    {
      hide DiskOk, Step, Valid;
      ghost var was := Now();
      checkpoint := sequence;
      Pass(was, mark, start, e);
      var openedJournal: bool := *;
      if !openedJournal { return false; }
      EmptyingKeeps(disk, history, durable, others);
      was := Now();
      disk := disk.Truncate(0);
      Pass(was, mark, start, e);
      ok := Fdatasync(mark, start, e);
      if ok { ok := *; }
    }

    /** The memory that recovery rebuilds, as it stands. */
    ghost function Rebuilt(): Memory
      reads this, shared, shared.files
      requires Valid(shared.files[..])
    {
      Memory(Recorded(shared.files[..]), sequence, checkpoint)
    }

    /** One entry of the snapshot after its header. */
    method ReplayEntry(r: Record) returns (ok: bool)
      requires Valid(shared.files[..])
      requires shared.version % 2 == 1
      modifies shared, shared.files
      ensures Valid(shared.files[..])
      ensures ok <==> Loaded(old(Rebuilt()), FrameOf(r)).Some?
      ensures ok ==> Rebuilt() == Loaded(old(Rebuilt()), FrameOf(r)).value
      ensures shared.version == old(shared.version)
    {
      if !Accepted(r) || SequenceOf(r) != checkpoint { return false; }
      ok := shared.Put(Unpacked(r));
    }

    /** The rest of the snapshot pass: every record after the header, nothing torn. */
    method ReplayEntries(data: Bytes) returns (ok: bool)
      requires Valid(shared.files[..]) && |data| >= RECORD_SIZE
      requires shared.version % 2 == 1
      modifies shared, shared.files
      ensures Valid(shared.files[..])
      ensures ok <==> |data| % RECORD_SIZE == 0 && LoadEntries(Frames(data[RECORD_SIZE..]), old(Rebuilt())).Some?
      ensures ok ==> Rebuilt() == LoadEntries(Frames(data[RECORD_SIZE..]), old(Rebuilt())).value
      ensures shared.version == old(shared.version)
    {
      hide Valid, FrameOf, Recorded, Frames, Loaded;
      var offset := RECORD_SIZE;
      while offset < |data|
        invariant RECORD_SIZE <= offset <= |data| && offset % RECORD_SIZE == 0
        invariant Valid(shared.files[..]) && shared.version == old(shared.version)
        invariant LoadEntries(Frames(data[RECORD_SIZE..]), old(Rebuilt()))
               == LoadEntries(Frames(data[offset..]), Rebuilt())
      {
        if |data| - offset < RECORD_SIZE { assert |data| % RECORD_SIZE != 0; return false; }
        var r := data[offset..offset + RECORD_SIZE];
        FirstFrame(data, offset);
        LoadEntriesCons(FrameOf(r), Frames(data[offset + RECORD_SIZE..]), Rebuilt());
        ok := ReplayEntry(r);
        if !ok { return; }
        offset := offset + RECORD_SIZE;
      }
      assert data[offset..] == [];
      NoFrames();
      return true;
    }

    /** The snapshot pass of Replay. */
    method ReplaySnapshot(data: Bytes) returns (ok: bool)
      requires Valid(shared.files[..]) && Recorded(shared.files[..]) == map[]
      requires shared.version % 2 == 1
      modifies this`sequence, this`checkpoint, shared, shared.files
      ensures Valid(shared.files[..])
      ensures ok <==> LoadSnapshot(Some(data)).Some?
      ensures ok ==> Rebuilt() == LoadSnapshot(Some(data)).value
      ensures shared.version == old(shared.version)
    {
      hide Valid, Accepted, Unpacked, SequenceOf, FrameOf, Recorded, LoadSnapshot, Frames, LoadEntries;
      SnapshotHeader(data);
      if |data| < RECORD_SIZE { return false; }
      var header := data[..RECORD_SIZE];
      if !Accepted(header) || Unpacked(header).inode != 0 { return false; }
      sequence, checkpoint := SequenceOf(header), SequenceOf(header);
      ok := ReplayEntries(data);
    }

    /** One journal record: skipped, applied or refused. */
    method ReplayRecord(r: Record) returns (ok: bool)
      requires Valid(shared.files[..])
      requires shared.version % 2 == 1
      modifies this`sequence, shared, shared.files
      ensures Valid(shared.files[..])
      ensures ok <==> Applied(old(Rebuilt()), FrameOf(r)).Some?
      ensures ok ==> Rebuilt() == Applied(old(Rebuilt()), FrameOf(r)).value
      ensures shared.version == old(shared.version)
    {
      if !Accepted(r) { return false; }
      var next := SequenceOf(r);
      if next <= checkpoint { return true; }
      if next != sequence + 1 { return false; }
      ok := shared.Put(Unpacked(r));
      if ok { sequence := next; }
    }

    /** The journal pass of Replay; `whole` is where an incomplete last record begins. */
    method ReplayJournal(journal: Bytes) returns (ok: bool, whole: nat)
      requires Valid(shared.files[..])
      requires shared.version % 2 == 1
      modifies this`sequence, shared, shared.files
      ensures Valid(shared.files[..])
      ensures ok <==> LoadJournal(Frames(journal), old(Rebuilt())).Some?
      ensures ok ==> Rebuilt() == LoadJournal(Frames(journal), old(Rebuilt())).value && whole == Whole(journal)
      ensures shared.version == old(shared.version)
    {
      hide Valid, FrameOf, Recorded, LoadJournal, Frames;
      whole, ok := 0, true;
      assert journal[0..] == journal;
      while whole + RECORD_SIZE <= |journal|
        invariant whole <= |journal| && whole % RECORD_SIZE == 0 && Valid(shared.files[..])
        invariant shared.version == old(shared.version)
        invariant LoadJournal(Frames(journal), old(Rebuilt())) == LoadJournal(Frames(journal[whole..]), Rebuilt())
      {
        var r := journal[whole..whole + RECORD_SIZE];
        FirstFrame(journal, whole);
        LoadJournalCons(FrameOf(r), Frames(journal[whole + RECORD_SIZE..]), Rebuilt());
        ok := ReplayRecord(r);
        if !ok { return; }
        whole := whole + RECORD_SIZE;
      }
      NoMoreFrames(journal, whole, Rebuilt());
      return true, whole;
    }

    /** An empty table to begin with. */
    method Clear(ghost mark: seq<Moment>, ghost start: Moment, ghost e: Event)
      requires (dirty || !attached) && Alive(mark, start, e)
      requires shared.version % 2 == 1
      modifies this`sequence, this`checkpoint, this`moments, shared, shared.files
      ensures Alive(mark, start, e) && Valid(shared.files[..])
      ensures Recorded(shared.files[..]) == map[] && sequence == 0 && checkpoint == 0
      ensures shared.version == old(shared.version)
    {
      assert shared.files.Length == SLOTS;
      hide CrashOk, Step, Valid, Recorded;
      ghost var was := Now();
      shared.Wipe();
      sequence, checkpoint := 0, 0;
      AnyTable(was, shared.files[..], 0, 0);
      Pass(was, mark, start, e);
    }

    method SnapshotPass(ghost mark: seq<Moment>, ghost start: Moment, ghost e: Event) returns (ok: bool)
      requires (dirty || !attached) && Alive(mark, start, e) && Valid(shared.files[..])
      requires Recorded(shared.files[..]) == map[] && sequence == 0 && checkpoint == 0
      requires shared.version % 2 == 1
      modifies this`sequence, this`checkpoint, this`moments, shared, shared.files
      ensures Alive(mark, start, e) && Valid(shared.files[..])
      ensures ok <==> LoadSnapshot(disk.snapshot).Some?
      ensures ok ==> Some(Rebuilt()) == LoadSnapshot(disk.snapshot)
      ensures shared.version == old(shared.version)
    {
      assert shared.files.Length == SLOTS;
      hide CrashOk, Step, Valid, Recorded, Frames, LoadEntries;
      ghost var was := Now();
      ok := true;
      if disk.snapshot.Some? { ok := ReplaySnapshot(disk.snapshot.value); }
      hide LoadSnapshot;
      AnyTable(was, shared.files[..], sequence, checkpoint);
      Pass(was, mark, start, e);
    }

    method JournalPass(ghost mark: seq<Moment>, ghost start: Moment, ghost e: Event) returns (ok: bool, whole: nat)
      requires (dirty || !attached) && Alive(mark, start, e) && Valid(shared.files[..])
      requires shared.version % 2 == 1
      modifies this`sequence, this`moments, shared, shared.files
      ensures Alive(mark, start, e) && Valid(shared.files[..])
      ensures ok <==> LoadJournal(Frames(disk.journal), old(Rebuilt())).Some?
      ensures ok ==> Rebuilt() == LoadJournal(Frames(disk.journal), old(Rebuilt())).value && whole == Whole(disk.journal)
      ensures shared.version == old(shared.version)
    {
      assert shared.files.Length == SLOTS;
      hide CrashOk, Step, Valid, Recorded, Frames, LoadJournal, Whole;
      ghost var was := Now();
      ok, whole := ReplayJournal(disk.journal);
      AnyTable(was, shared.files[..], sequence, checkpoint);
      Pass(was, mark, start, e);
    }

    /** The passes of Replay over the two files; `whole` is where an incomplete last record begins. */
    method Rebuild(ghost mark: seq<Moment>, ghost start: Moment, ghost e: Event) returns (ok: bool, whole: nat)
      requires (dirty || !attached) && Alive(mark, start, e)
      requires shared.version % 2 == 1
      modifies this`sequence, this`checkpoint, this`moments, shared, shared.files
      ensures Alive(mark, start, e) && Valid(shared.files[..])
      ensures ok && whole == Whole(disk.journal) && Some(Rebuilt()) == Recover(disk.snapshot, disk.journal)
      ensures shared.version == old(shared.version)
    {
      Loadable(disk, history, durable, others);
      hide CrashOk, Step, Valid, Recorded, LoadSnapshot, Recover, Frames, Whole, LoadJournal;
      Clear(mark, start, e);
      ok := SnapshotPass(mark, start, e);
      ok, whole := JournalPass(mark, start, e);
    }

    /** Rebuilds the shared memory from the files, with the version odd until it is complete. */
    method Replay(ghost mark: seq<Moment>, ghost start: Moment, ghost e: Event) returns (ok: bool)
      requires (dirty || !attached) && Alive(mark, start, e)
      modifies this`sequence, this`checkpoint, this`dirty, this`disk, this`moments, shared, shared.files
      ensures ok && Ready() && !dirty && Alive(mark, start, e)
      ensures disk.olderSnapshots == old(disk.olderSnapshots)
      ensures shared.version == old(shared.version) / 2 * 2 + 2
    {
      hide DiskOk, Step, Valid, Recorded, LoadSnapshot, Recover, Frames, LoadJournal;
      var odd := shared.version / 2 * 2 + 1;
      shared.version := odd;
      var whole;
      ok, whole := Rebuild(mark, start, e);
      KillRecovers(disk, history, durable, others);
      TrimKeeps(disk, history, durable, others);
      ghost var was := Now();
      disk := disk.Truncate(whole);
      Pass(was, mark, start, e);
      dirty := false;
      Pass(was, mark, start, e);
      shared.version := odd + 1;
    }

    /** A process may use the store once it is attached; a first opener once it has recovered. */
    ghost predicate Usable()
      reads this, shared.files
    {
      Survives() && (attached || (Ready() && !dirty))
    }

    /** Takes the writer lock; a table that a writer left marked dirty is rebuilt first. */
    method Lock(ghost mark: seq<Moment>, ghost start: Moment, ghost e: Event) returns (ok: bool)
      requires Usable() && Alive(mark, start, e)
      modifies this`sequence, this`checkpoint, this`dirty, this`disk, this`moments, shared, shared.files
      ensures ok && Ready() && !dirty && Alive(mark, start, e)
      ensures disk.olderSnapshots == old(disk.olderSnapshots)
      ensures Noticed(old(shared.version), old(shared.files[..]), shared.version, shared.files[..])
    {
      hide DiskOk, Step, Valid;
      ok := true;
      if dirty { ok := Replay(mark, start, e); }
    }

    method Unlock()
      modifies shared
      ensures shared.version % 2 == 0
      ensures old(shared.version) <= shared.version <= old(shared.version) + 1
    {
      if shared.version % 2 == 1 { shared.version := shared.version + 1; }
    }

    /** The kill point before a request has done anything. */
    method Begin(ghost e: Event) returns (ghost mark: seq<Moment>)
      requires Survives() && Unfinished(e)
      modifies this`moments
      ensures mark == moments == old(moments) + [old(Now())]
      ensures Now() == old(Now()) && Alive(mark, Now(), e)
    {
      hide CrashOk, Step;
      StepBegins(Now(), e);
      moments := moments + [Now()];
      mark := moments;
    }

    /**
      Set, by any process that may use the store, whatever the writers before it left behind. Only a record
      with inode 0 can end the store: it is journalled like any other, but Put refuses it.
     */
    method Set(owner: FileOwner, durably: bool, previous: Option<FileOwner>) returns (ok: bool)
      requires Usable() && |history| < 0x1_0000_0000_0000_0000
      modifies this, shared, shared.files
      ensures attached == old(attached) && (ok ==> Ready() && !dirty) && |history| <= |old(history)| + 1
      ensures if Survives() then Step(old(Now()), Returned(owner, durably, ok), Now())
              else owner.inode == 0 && Poisoned() && !ok
      ensures old(moments) + [old(Now())] <= moments
      ensures forall i | |old(moments)| < i < |moments| :: Step(old(Now()), Killed(owner), moments[i])
      ensures var verdict := Judge(Last(old(history)), owner, previous);
              if verdict.Write? then
                ok ==> owner.inode != 0 && |history| > |old(history)| && sequence - checkpoint < CHECKPOINT_INTERVAL
                       && (durably ==> durable == |history| - 1)
              else ok == verdict.Unchanged? && history == old(history) && Survives()
      // The newest table before the call had the record that the caller expected, or nothing has been done.
      ensures old(history) != []
              && (previous.Some? && Differs(EntryFor(Last(old(history)), owner.Id()), previous.value) ==>
                    !ok && history == old(history) && Survives())
      ensures !Fits(Last(old(history)), owner.Id()) ==> !ok && history == old(history) && Survives()
      ensures shared.version % 2 == 0
      ensures Noticed(old(shared.version), old(shared.files[..]), shared.version, shared.files[..])
    {
      hide DiskOk, Valid, Clean, Step, Recover, Judge, Stored, Grown, Differs, Fits, EntryFor;
      ghost var start := Now();
      Bounds(disk, history, durable, others);
      Refusals(Last(history), owner, previous);
      ghost var mark := Begin(Killed(owner));
      ok := Lock(mark, start, Killed(owner));
      ghost var locked, table := shared.version, shared.files[..];
      ok := SetLocked(owner, durably, previous, mark, start);
      NoticedFurther(old(shared.version), old(shared.files[..]), locked, table, shared.version, shared.files[..]);
      Unlock();
      if Survives() {
        KillRecovers(disk, history, durable, others);
        SetEnds(start, owner, durably, previous, ok, Now());
      }
    }

    /** Checkpoint, by any process that may use the store. */
    method Checkpoint() returns (ok: bool)
      requires Usable()
      modifies this, shared, shared.files
      ensures Ready() && !dirty && attached == old(attached) && Step(old(Now()), Compacted(ok), Now())
      ensures history == old(history)
      ensures old(moments) + [old(Now())] <= moments
      ensures forall i | |old(moments)| < i < |moments| :: Step(old(Now()), Compacted(false), moments[i])
      ensures ok ==> checkpoint == sequence && disk.journal == [] && durable == |history| - 1 && others == map[]
      ensures shared.version % 2 == 0
      ensures Noticed(old(shared.version), old(shared.files[..]), shared.version, shared.files[..])
    {
      hide DiskOk, Valid, Step;
      ghost var start := Now();
      ghost var mark := Begin(Compacted(false));
      ok := Lock(mark, start, Compacted(false));
      ok := CheckpointLocked(None, mark, start, Compacted(false));
      Unlock();
      StepEnds(start, Compacted(false), Now(), Compacted(ok));
    }

    /** Recovery by a first opener, whatever there was in the shared memory. */
    method StartUp() returns (ok: bool)
      requires Survives() && !attached
      modifies this, shared, shared.files
      ensures ok && Ready() && !dirty && !attached && Step(old(Now()), Compacted(false), Now())
      ensures history == old(history)
      ensures old(moments) + [old(Now())] <= moments
      ensures forall i | |old(moments)| < i < |moments| :: Step(old(Now()), Compacted(false), moments[i])
    {
      hide DiskOk, Step, Valid, Clean;
      ghost var start := Now();
      ghost var mark := Begin(Compacted(false));
      ok := Replay(mark, start, Compacted(false));
    }

    /** The table is emptied and filled again, while nobody else is attached. */
    method Refill(live: seq<FileOwner>, ghost mark: seq<Moment>, ghost start: Moment) returns (ok: bool)
      requires Ready() && !dirty && !attached && Alive(mark, start, Rewritten(live, false)) && Untouched(start)
      modifies this`moments, shared, shared.files
      ensures Alive(mark, start, Rewritten(live, false))
      ensures ok ==> Writable(Some(live), start, Rewritten(live, false))
    {
      hide DiskOk, Step, Valid, Recorded, Fold;
      ghost var was := Now();
      shared.Wipe();
      Pass(was, mark, start, Rewritten(live, false));
      ok := shared.PutAll(live);
      StoredAllExactly(map[], live);
      Pass(was, mark, start, Rewritten(live, false));
    }

    /**
      The end of the startup scan: the table is rebuilt from the files found, and a checkpoint replaces
      all records by it at once.
     */
    method Rewrite(live: seq<FileOwner>) returns (ok: bool)
      requires Ready() && !dirty && !attached
      modifies this, shared, shared.files
      ensures Survives() && Step(old(Now()), Rewritten(live, ok), Now()) && |history| == |old(history)|
      ensures old(moments) + [old(Now())] <= moments
      ensures forall i | |old(moments)| < i < |moments| :: Step(old(Now()), Rewritten(live, false), moments[i])
      ensures ok ==>
                && Ready() && !dirty && !attached
                && disk.journal == [] && durable == |history| - 1 && Last(history) == Fold(map[], live)
    {
      hide DiskOk, Step, Valid, Clean, Recorded, Fold;
      ghost var start, e := Now(), Rewritten(live, false);
      Bounds(disk, history, durable, others);
      ghost var mark := Begin(e);
      ok := Refill(live, mark, start);
      if ok { ok := CheckpointLocked(Some(live), mark, start, e); }
      StepEnds(start, e, Now(), Rewritten(live, ok));
    }

    /**
      Opening the store as its first user: recovery, the Sets that the scan makes on its way, its replacement of all
      records, the Sets of PrepareUser, and a checkpoint. Until it ends, other processes wait for it. `run` is what it
      comes to, and every kill point on the way is a possible end of one of its steps.
     */
    method Open(found: seq<FileOwner>, live: seq<FileOwner>, prepared: seq<FileOwner>)
      returns (ok: bool, ghost run: seq<Moment>, ghost events: seq<Event>)
      requires Survives() && !attached
      requires |history| + |found| + |prepared| <= 0x1_0000_0000_0000_0000
      requires forall o | o in found + prepared :: o.inode != 0
      modifies this, shared, shared.files
      ensures Chained(run, events) && run[0] == old(Now()) && run[|events|] == Now()
      ensures old(moments) <= moments && AllReached(run, moments[|old(moments)|..])
      ensures ok ==> Ready() && attached && !dirty && disk.journal == [] && durable == |history| - 1 && others == map[]
      ensures ok ==> Last(history) == Fold(Fold(map[], live), prepared)
    {
      hide DiskOk, Valid, Clean, Fold, Step, Reached;
      ghost var before := moments;
      run, events := [Now()], [];
      ok := StartUp();
      run, events := RunOn(run, events, Compacted(false), Compacted(false), Now(), before, before, moments);
      ok, run, events := SetAll(found, before, run, events);
      if !ok { return; }
      ghost var was := moments;
      ok := Rewrite(live);
      run, events := RunOn(run, events, Rewritten(live, ok), Rewritten(live, false), Now(), before, was, moments);
      if !ok { return; }
      ok, run, events := SetAll(prepared, before, run, events);
      if !ok { return; }
      ok, run, events := LetIn(before, run, events);
    }

    /** The last checkpoint of a first opener; if it succeeds, others may attach. */
    method LetIn(ghost before: seq<Moment>, ghost was: seq<Moment>, ghost done: seq<Event>)
      returns (ok: bool, ghost run: seq<Moment>, ghost events: seq<Event>)
      requires Ready() && !dirty && !attached && Chained(was, done) && was[|done|] == Now()
      requires before <= moments && AllReached(was, moments[|before|..])
      modifies this, shared, shared.files
      ensures Chained(run, events) && run[0] == was[0] && run[|events|] == Now()
      ensures before <= moments && AllReached(run, moments[|before|..])
      ensures history == old(history)
      ensures ok ==> Ready() && attached && !dirty && disk.journal == [] && durable == |history| - 1 && others == map[]
    {
      hide DiskOk, Valid, Step, Reached;
      ghost var kept := moments;
      ok := Checkpoint();
      run, events := RunOn(was, done, Compacted(ok), Compacted(false), Now(), before, kept, moments);
      if ok {
        attached := true;
        AttachedSteps(run[|events|], Now());
        run, events := RunOn(run, events, Compacted(false), Compacted(false), Now(), before, moments, moments);
      }
    }

    /** Durable Sets one after the other, by a first opener, up to one that fails. */
    method SetAll(owners: seq<FileOwner>, ghost before: seq<Moment>, ghost was: seq<Moment>, ghost done: seq<Event>)
      returns (ok: bool, ghost run: seq<Moment>, ghost events: seq<Event>)
      requires Ready() && !dirty && !attached && |history| + |owners| <= 0x1_0000_0000_0000_0000
      requires forall o | o in owners :: o.inode != 0
      requires Chained(was, done) && was[|done|] == Now()
      requires before <= moments && AllReached(was, moments[|before|..])
      modifies this, shared, shared.files
      ensures Survives() && !attached && Chained(run, events) && run[0] == was[0] && run[|events|] == Now()
      ensures before <= moments && AllReached(run, moments[|before|..])
      ensures ok ==> Ready() && !dirty && |history| <= |old(history)| + |owners|
      ensures ok ==> history != [] && old(history) != [] && Last(history) == Fold(Last(old(history)), owners)
    {
      hide DiskOk, Valid, Clean, Fold, Step, Reached;
      Bounds(disk, history, durable, others);
      ok, run, events := true, was, done;
      FoldNone(Last(history));
      for i := 0 to |owners|
        invariant Ready() && !dirty && !attached && 0 < |history| <= |old(history)| + i
        invariant Last(history) == Fold(Last(old(history)), owners[..i])
        invariant Chained(run, events) && run[0] == was[0] && run[|events|] == Now()
        invariant before <= moments && AllReached(run, moments[|before|..])
      {
        ghost var now := moments;
        ghost var newest := history;
        ok := Set(owners[i], true, None);
        if ok { SetStores(run[|events|], owners[i], true, Now()); }
        run, events := RunOn(run, events, Returned(owners[i], true, ok), Killed(owners[i]), Now(), before, now, moments);
        if !ok { return; }
        assert owners[..i + 1] == owners[..i] + [owners[i]];
        FoldSnoc(Last(old(history)), owners[..i], owners[i]);
      }
      assert owners[..|owners|] == owners;
    }
  }

  // ----- What opening the store comes to

  ghost predicate Chained(run: seq<Moment>, events: seq<Event>) {
    |run| == |events| + 1 && forall i | 0 <= i < |events| :: Step(run[i], events[i], run[i + 1])
  }

  /** A point of the run, or a possible end of a step from one. */
  ghost predicate Reached(run: seq<Moment>, m: Moment) {
    m in run || exists k, e | 0 <= k < |run| :: Step(run[k], e, m)
  }

  ghost predicate AllReached(run: seq<Moment>, moments: seq<Moment>) {
    forall m | m in moments :: Reached(run, m)
  }

  /** One more step, with the kill points it has passed. */
  lemma RunOn(was: seq<Moment>, done: seq<Event>, e: Event, killed: Event, next: Moment,
              before: seq<Moment>, kept: seq<Moment>, now: seq<Moment>) returns (run: seq<Moment>, events: seq<Event>)
    requires Chained(was, done) && Step(was[|done|], e, next)
    requires before <= kept <= now && AllReached(was, kept[|before|..])
    requires forall i | |kept| <= i < |now| :: now[i] == was[|done|] || Step(was[|done|], killed, now[i])
    ensures run == was + [next] && events == done + [e] && Chained(run, events)
    ensures before <= now && AllReached(run, now[|before|..])
  {
    hide Step;
    run, events := was + [next], done + [e];
    forall i | 0 <= i < |events| ensures Step(run[i], events[i], run[i + 1]) {
      if i < |done| { assert Step(was[i], done[i], was[i + 1]); }
    }
    forall i | |before| <= i < |now| ensures Reached(run, now[i]) {
      if i < |kept| {
        assert kept[|before|..][i - |before|] == now[i];
        StillReached(was, next, now[i]);
      } else {
        assert was[|done|] == run[|done|] && run[|done|] in run;
      }
    }
  }

  lemma StillReached(run: seq<Moment>, next: Moment, m: Moment)
    requires Reached(run, m)
    ensures Reached(run + [next], m)
  {
    hide Step;
    if m !in run {
      var k, e :| 0 <= k < |run| && Step(run[k], e, m);
      assert Step((run + [next])[k], e, m);
    }
  }

  lemma FoldNone(m: Owners)
    ensures Fold(m, []) == m
  {
  }

  /** An acknowledged Set has its record in the table, and has touched no other. */
  lemma SetStores(m: Moment, owner: FileOwner, durably: bool, next: Moment)
    requires Step(m, Returned(owner, durably, true), next)
    ensures m.history != [] && next.history != [] && Last(next.history) == Stored(Last(m.history), owner)
  {
    hide CrashOk, OthersFollow;
  }

  /** The others may attach to a table that is current. */
  lemma AttachedSteps(m: Moment, next: Moment)
    requires CrashOk(m) && Clean(m.image, m.history) && next == m.(image := m.image.(attached := true))
    ensures Step(m, Compacted(false), next)
  {
    StepBegins(m, Compacted(false));
    hide Clean, DiskOk, Step;
    StepOn(m, Compacted(false), m, next);
  }
}
