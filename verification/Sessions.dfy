/**
  Runs made of the store's own operations: any sequence of processes, each of which returns or is
  killed at one of its kill points, of startups, and of power cuts.
 */
module Sessions {
  import opened Types
  import opened Codec
  import opened FileTable
  import opened Journal
  import opened Disks
  import opened Runs
  import opened Store

  /** What is asked of the store next. The three in the middle are those of a first opener, in this order. */
  datatype Request =
    | SetRecord(owner: FileOwner, durably: bool, previous: Option<FileOwner>)
    | Compact
    | Begin | Rescan(live: seq<FileOwner>) | Attach
    | Leave      // the last process is gone, and with it the shared memory
    | CutPower

  /** Where the store is: an instant, and whether a first opener is at work that has recovered. */
  datatype Place = Place(at: Moment, recovered: bool)

  ghost predicate PlaceOk(p: Place) {
    CrashOk(p.at) && (p.recovered ==> Clean(p.at.image, p.at.history) && !p.at.image.dirty && !p.at.image.attached)
  }

  /** What happens on a request, None if nothing does. */
  datatype Outcome = Outcome(event: Event, place: Place)

  ghost predicate Follows(p: Place, o: Outcome) {
    && Step(p.at, o.event, o.place.at) && PlaceOk(o.place)
    && |o.place.at.history| <= |p.at.history| + 1
  }

  lemma StepGrows(p: Place, e: Event, next: Moment)
    requires PlaceOk(p) && Step(p.at, e, next)
    ensures |next.history| <= |p.at.history| + 1
    ensures Follows(p, Outcome(e, Place(next, false)))
  {
    hide DiskOk, Clean, Fold, OthersFollow;
    if e.PowerLost? {
      var was := CutAt(p.at, next);
      ToldAlike(p.at, was);
    }
  }

  /** A process that finds the store at `p` and asks it to set a record. After one with inode 0 it may be at its end. */
  method SetAt(p: Place, owner: FileOwner, durably: bool, previous: Option<FileOwner>) returns (o: Option<Outcome>)
    requires PlaceOk(p) && |p.at.history| < 0x1_0000_0000_0000_0000
    ensures o.Some? ==> Follows(p, o.value)
  {
    if !p.at.image.attached && !p.recovered { return None; }
    hide Clean, Step, DiskOk;
    var store := new OwnershipStore.At(p.at);
    var ok := store.Set(owner, durably, previous);
    var killed: int := *;
    if 0 < killed < |store.moments| {
      StepGrows(p, Killed(owner), store.moments[killed]);
      return Some(Outcome(Killed(owner), Place(store.moments[killed], false)));
    }
    if owner.inode == 0 { return None; }
    StepGrows(p, Returned(owner, durably, ok), store.Now());
    return Some(Outcome(Returned(owner, durably, ok), Place(store.Now(), p.recovered && ok)));
  }

  method CompactAt(p: Place) returns (o: Option<Outcome>)
    requires PlaceOk(p)
    ensures o.Some? ==> Follows(p, o.value)
  {
    if !p.at.image.attached && !p.recovered { return None; }
    hide Clean, Step, DiskOk;
    var store := new OwnershipStore.At(p.at);
    var ok := store.Checkpoint();
    var killed: int := *;
    if 0 < killed < |store.moments| {
      StepGrows(p, Compacted(false), store.moments[killed]);
      return Some(Outcome(Compacted(false), Place(store.moments[killed], false)));
    }
    StepGrows(p, Compacted(ok), store.Now());
    return Some(Outcome(Compacted(ok), Place(store.Now(), p.recovered)));
  }

  /** A first opener recovers. */
  method BeginAt(p: Place) returns (o: Option<Outcome>)
    requires PlaceOk(p)
    ensures o.Some? ==> Follows(p, o.value)
  {
    if p.at.image.attached { return None; }
    hide Clean, Step, DiskOk;
    var store := new OwnershipStore.At(p.at);
    var _ := store.StartUp();
    var killed: int := *;
    if 0 < killed < |store.moments| {
      StepGrows(p, Compacted(false), store.moments[killed]);
      return Some(Outcome(Compacted(false), Place(store.moments[killed], false)));
    }
    StepGrows(p, Compacted(false), store.Now());
    return Some(Outcome(Compacted(false), Place(store.Now(), true)));
  }

  /** It replaces all records by those of the files it has found; if it fails, it leaves. */
  method RescanAt(p: Place, live: seq<FileOwner>) returns (o: Option<Outcome>)
    requires PlaceOk(p)
    ensures o.Some? ==> Follows(p, o.value)
  {
    if !p.recovered { return None; }
    hide Clean, Step, DiskOk;
    var store := new OwnershipStore.At(p.at);
    var ok := store.Rewrite(live);
    var killed: int := *;
    if 0 < killed < |store.moments| {
      StepGrows(p, Rewritten(live, false), store.moments[killed]);
      return Some(Outcome(Rewritten(live, false), Place(store.moments[killed], false)));
    }
    StepGrows(p, Rewritten(live, ok), store.Now());
    return Some(Outcome(Rewritten(live, ok), Place(store.Now(), ok)));
  }

  /** It lets the others in. */
  method AttachAt(p: Place) returns (o: Option<Outcome>)
    requires PlaceOk(p)
    ensures o.Some? ==> Follows(p, o.value)
  {
    if !p.recovered { return None; }
    var next := p.at.(image := p.at.image.(attached := true));
    AttachedSteps(p.at, next);
    hide DiskOk, Step;
    StepGrows(p, Compacted(false), next);
    return Some(Outcome(Compacted(false), Place(next, false)));
  }

  /** The last process has left; the next finds fresh memory. */
  method LeaveAt(p: Place) returns (o: Option<Outcome>)
    requires PlaceOk(p)
    ensures o.Some? ==> Follows(p, o.value)
  {
    var blank := p.at.(image := Image(p.at.image.disk, seq(SLOTS, _ => EMPTY_OWNER), 0, 0, false, false));
    StepBegins(p.at, Compacted(false));
    hide DiskOk, Step;
    StepOn(p.at, Compacted(false), p.at, blank);
    StepGrows(p, Compacted(false), blank);
    return Some(Outcome(Compacted(false), Place(blank, false)));
  }

  /** Power is lost: any contents that the two files may have kept, but a snapshot that was given up, are what the next process finds. */
  method CutPowerAt(p: Place) returns (o: Option<Outcome>)
    requires PlaceOk(p)
    ensures o.Some? ==> Follows(p, o.value)
  {
    hide Clean, Step, DiskOk, Recover;
    var d := p.at.image.disk;
    assert d.Current() in d.Journals();
    var all := {d.snapshot} + p.at.others.Keys;
    assert d.snapshot in all;
    var s :| s in all;
    var v :| v in d.Journals();
    VersionBounds(p.at, s, v);
    var n: int := *;
    if n < v.synced || |v.bytes| < n { n := v.synced; }
    var j := v.bytes[..n];
    assert d.MaySurvive(s, j);
    PowerCutSteps(p.at, s, j);
    var next := Cut(p.at, s, j, Recover(s, j).value.sequence);
    StepGrows(p, PowerLost, next);
    return Some(Outcome(PowerLost, Place(next, false)));
  }

  lemma VersionBounds(m: Moment, s: Option<Bytes>, v: Version)
    requires CrashOk(m) && v in m.image.disk.Journals() && (s == m.image.disk.snapshot || s in m.others)
    ensures v.synced <= |v.bytes| && s in m.image.disk.Snapshots()
  {
    hide Clean;
    assert PairOk(m.image.disk.snapshot, v, m.history, m.durable);
  }

  method ServeAt(p: Place, r: Request) returns (o: Option<Outcome>)
    requires PlaceOk(p) && |p.at.history| < 0x1_0000_0000_0000_0000
    ensures o.Some? ==> Follows(p, o.value)
  {
    hide PlaceOk, Follows;
    match r
    case SetRecord(owner, durably, previous) => o := SetAt(p, owner, durably, previous);
    case Compact => o := CompactAt(p);
    case Begin => o := BeginAt(p);
    case Rescan(live) => o := RescanAt(p, live);
    case Attach => o := AttachAt(p);
    case Leave => o := LeaveAt(p);
    case CutPower => o := CutPowerAt(p);
  }

  /**
    Serves requests until one of them can do nothing. The operations of the store make a run, so what
    recovery yields at its end is the story of that run.
   */
  method Serve(start: Moment, requests: seq<Request>)
    returns (moments: seq<Moment>, events: seq<Event>, ghost t: Story)
    requires CrashOk(start) && start.others == map[] && |start.history| + |requests| <= 0x1_0000_0000_0000_0000
    ensures Run(moments, events) && moments[0] == start && |events| <= |requests|
    ensures Told(moments, events, |events|, t)
    ensures var last := moments[|events|].image.disk;
            && Recover(last.snapshot, last.journal).Some?
            && Recover(last.snapshot, last.journal).value.owners == Play(start.history[t.base], t.ops)
  {
    hide DiskOk, Clean, Step, Told, Recover, Play;
    var p := Place(start, false);
    moments, events := [start], [];
    for i := 0 to |requests|
      invariant |events| == i && Run(moments, events) && moments[0] == start && moments[i] == p.at && PlaceOk(p)
      invariant |p.at.history| <= |start.history| + i
    {
      var o := ServeAt(p, requests[i]);
      if o.None? { break; }
      RunLonger(moments, events, o.value.place.at, o.value.event);
      moments, events, p := moments + [o.value.place.at], events + [o.value.event], o.value.place;
    }
    t := RunRecovers(moments, events);
  }
}
