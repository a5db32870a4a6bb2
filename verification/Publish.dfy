/**
  Creating files: each is built in a staging directory, given a durable record, and only then renamed to its
  path. Wherever a creator or a startup is killed, every visible file that startups meet has the owner asked for.
 */
module Publish {
  import opened Types
  import opened FileTable
  import opened Import
  import opened Startups
  import R = Runs
  import S = Store

  /** A staging directory, empty or holding the item being created. */
  type Staging = Option<Key>

  /** `births` is what stat reports of an inode. */
  datatype World = World(
    visible: map<Path, Key>, births: map<Key, Birth>, staging: map<nat, Staging>, disk: Disk, store: R.Moment)
  {
    function Here(): Instant { Instant(disk, store) }

    function Root(): Rootfs { Rootfs(visible, births) }

    /** What the last processes have left is in order. */
    ghost predicate Ok() { Tied(Here()) && Sound(Root(), disk) }
  }

  /** What the caller asks for, and what stat will say of the inode the kernel picks. */
  datatype Request = Request(path: Path, key: Key, birth: Birth, uid: uint32, gid: uint32, mode: Mode)
  {
    function Owner(): FileOwner {
      FileOwner(key.device, key.inode, birth.seconds, birth.nanoseconds, uid, gid, mode)
    }

    function Asked(): Attributes { Attributes(uid, gid, mode) }
  }

  predicate IsFifo(mode: Mode) { Kind(mode) % 16 == 1 }

  predicate IsRegular(mode: Mode) { Kind(mode) % 16 == 8 }

  predicate Creatable(mode: Mode) {
    IsDirectory(mode) || IsLink(mode) || IsFifo(mode) || IsRegular(mode)
  }

  /** What can be made: S_IFIFO, S_IFDIR, S_IFREG and S_IFLNK, that is 010000, 040000, 0100000 and 0120000. */
  lemma CreatableExactly(mode: Mode)
    ensures Creatable(mode) <==> mode % 0x1_0000 - mode % 0x1000 in {0x1000, 0x4000, 0x8000, 0xA000}
  {
    assert mode % 0x1_0000 / 0x1000 == mode / 0x1000 % 16;
    assert mode % 0x1_0000 % 0x1000 == mode % 0x1000;
  }

  /** Records and host modes of all files but the new one are untouched. */
  ghost predicate OthersKept(before: Disk, now: Disk, key: Key) {
    && (forall k | k != key && k in before.host :: k in now.host && now.host[k] == before.host[k])
    && (forall k | k != key :: k in before.recorded <==> k in now.recorded)
    && (forall k | k != key && k in before.recorded :: now.recorded[k] == before.recorded[k])
  }

  /** The new file is on record as asked for, and on the host it is of the kind and has the bits asked for, widened. */
  ghost predicate Owned(d: Disk, r: Request) {
    && r.key in d.recorded && d.recorded[r.key] == r.Owner()
    && r.key in d.host && Kind(d.host[r.key]) == Kind(r.mode)
    && (IsLink(r.mode) || d.host[r.key] == Widened(Kind(r.mode) * 0x1000, r.mode))
  }

  /** The path is free, and the directory it names is there. */
  predicate Free(visible: map<Path, Key>, host: map<Key, Mode>, path: Path) {
    && path !in visible && path != [] && Parent(path) in visible
    && visible[Parent(path)] in host && IsDirectory(host[visible[Parent(path)]])
  }

  /**
    What may be found at any instant of a Create: nothing visible has changed, or the path has
    appeared and its file is on record; the unfinished item is in the staging directory `name` only.
   */
  ghost predicate Partial(before: World, r: Request, name: nat, now: World) {
    && Tied(now.Here()) && now.births == before.births
    && OthersKept(before.disk, now.disk, r.key)
    && (now.visible == before.visible
        || (Free(before.visible, now.disk.host, r.path) && now.visible == before.visible[r.path := r.key]
            && Owned(now.disk, r)))
    && (now.staging == before.staging || now.staging == before.staging[name := None]
        || (now.visible == before.visible && now.staging == before.staging[name := Some(r.key)]))
  }

  function WithStore(w: World, store: R.Moment): World
    requires store.history != []
  {
    w.(disk := w.disk.(recorded := R.Last(store.history)), store := store)
  }

  lemma TiedNow(before: World, r: Request, name: nat, now: World)
    requires Partial(before, r, name, now)
    ensures Tied(now.Here()) && R.CrashOk(now.store)
  {
  }

  lemma OwnerIs(r: Request)
    ensures r.Owner().Id() == r.key && r.Owner().inode == r.key.inode
  {
  }

  /** Each instant of recording the new file stays within a Create that has shown nothing yet. */
  lemma RecordedWithin(before: World, r: Request, name: nat, now: World, e: R.Event, next: R.Moment)
    requires Partial(before, r, name, now) && now.visible == before.visible
    requires R.Step(now.store, e, next)
    requires e == R.Killed(r.Owner()) || (e.Returned? && e.owner == r.Owner())
    ensures next.history != [] && Partial(before, r, name, WithStore(now, next))
    ensures e.Returned? && e.ok ==>
              r.key in R.Last(next.history) && R.Last(next.history)[r.key] == r.Owner()
  {
    var op := R.OpOf(now.store, e, next);
    OwnerIs(r);
    hide R.Clean, R.OthersFollow, Request.Owner;
    assert R.Last(next.history) == now.disk.recorded
           || R.Last(next.history) == FileTable.Stored(now.disk.recorded, r.Owner());
  }

  /** The instants of an operation of the store, as worlds. */
  function Worlds(w: World, moments: seq<R.Moment>): (worlds: seq<World>)
    requires forall m | m in moments :: m.history != []
    ensures |worlds| == |moments|
    ensures forall i | 0 <= i < |moments| :: worlds[i] == WithStore(w, moments[i])
  {
    seq(|moments|, i requires 0 <= i < |moments| => WithStore(w, moments[i]))
  }

  lemma AllRecordedWithin(before: World, r: Request, name: nat, now: World, moments: seq<R.Moment>)
    requires Partial(before, r, name, now) && now.visible == before.visible
    requires forall m | m in moments :: R.Step(now.store, R.Killed(r.Owner()), m)
    ensures forall m | m in moments :: m.history != []
    ensures forall w | w in Worlds(now, moments) :: Partial(before, r, name, w)
  {
    hide Partial, R.Step, Request.Owner;
    forall m | m in moments ensures m.history != [] && Partial(before, r, name, WithStore(now, m)) {
      RecordedWithin(before, r, name, now, R.Killed(r.Owner()), m);
    }
  }

  /** The instants of a startup, as worlds. */
  function WorldsAt(w: World, instants: seq<Instant>): (worlds: seq<World>)
    ensures |worlds| == |instants|
    ensures forall i | 0 <= i < |instants| ::
              worlds[i] == w.(disk := instants[i].disk, store := instants[i].store)
  {
    seq(|instants|, i requires 0 <= i < |instants| => w.(disk := instants[i].disk, store := instants[i].store))
  }

  class Creator {
    var world: World
    var moments: seq<World>

    constructor (world: World)
      ensures this.world == world && moments == []
    {
      this.world, moments := world, [];
    }

    /** So far, since kill point number `mark`, a Create begun at `before` has stayed within Partial. */
    ghost predicate Within(before: World, r: Request, name: nat, mark: nat)
      reads this
    {
      && Partial(before, r, name, world) && mark <= |moments|
      && forall i | mark <= i < |moments| :: Partial(before, r, name, moments[i])
    }

    method KillPoint(ghost before: World, ghost r: Request, ghost name: nat, ghost mark: nat)
      requires Partial(before, r, name, world) && mark <= |moments|
      requires forall i | mark <= i < |moments| :: Partial(before, r, name, moments[i])
      modifies this`moments
      ensures Within(before, r, name, mark)
    {
      moments := moments + [world];
    }

    /** Makes the item in the staging directory, with the mode the host needs. */
    method Build(r: Request, name: nat, ghost before: World, ghost mark: nat) returns (ok: bool)
      requires Within(before, r, name, mark) && world.visible == before.visible
      requires world.staging == before.staging[name := None]
      modifies this
      ensures Within(before, r, name, mark) && world.visible == before.visible && world.store == old(world).store
      ensures name in world.staging && world.staging == before.staging[name := world.staging[name]]
      ensures ok ==> Creatable(r.mode) && r.key in world.disk.host && Kind(world.disk.host[r.key]) == Kind(r.mode)
                     && (IsLink(r.mode) || world.disk.host[r.key] == Widened(Kind(r.mode) * 0x1000, r.mode))
    {
      hide Owned, Free, R.CrashOk;
      if !Creatable(r.mode) { return false; }
      ok := *;
      if !ok { return; }
      var made := world.disk.(host := world.disk.host[r.key := Kind(r.mode) * 0x1000]);
      world := world.(staging := world.staging[name := Some(r.key)], disk := made);
      assert world.staging == before.staging[name := Some(r.key)];
      KillPoint(before, r, name, mark);
      ok := *;
      if ok && !IsLink(r.mode) {
        ok := *;
        if ok {
          var widened := Widened(world.disk.host[r.key], r.mode);
          world := world.(disk := world.disk.(host := world.disk.host[r.key := widened]));
          KillPoint(before, r, name, mark);
        }
      }
    }

    /** The durable record: it may fail, or the creator may be killed, at any kill point of the store. */
    method Record(r: Request, name: nat, ghost before: World, ghost mark: nat) returns (ok: bool)
      requires Within(before, r, name, mark) && world.visible == before.visible
      requires world.store.image.attached && r.key.inode != 0 && |world.store.history| < 0x1_0000_0000_0000_0000
      modifies this
      ensures Within(before, r, name, mark)
      ensures world == old(world).(disk := world.disk, store := world.store) && world.disk.host == old(world).disk.host
      ensures ok ==> r.key in world.disk.recorded && world.disk.recorded[r.key] == r.Owner()
    {
      hide Partial, Request.Owner, R.Step, R.CrashOk, R.Clean;
      TiedNow(before, r, name, world);
      OwnerIs(r);
      var process := new S.OwnershipStore.At(world.store);
      ok := process.Set(r.Owner(), true, None);
      var killed := process.moments[1..];
      AllRecordedWithin(before, r, name, world, killed);
      RecordedWithin(before, r, name, world, R.Returned(r.Owner(), true, ok), process.Now());
      moments := moments + Worlds(world, killed);
      world := WithStore(world, process.Now());
    }

    /** renameat2 with RENAME_NOREPLACE, then the sync of the parent directory. */
    method Publish(r: Request, name: nat, ghost before: World, ghost mark: nat) returns (ok: bool)
      requires Within(before, r, name, mark) && world.visible == before.visible && Owned(world.disk, r)
      requires name in world.staging && world.staging == before.staging[name := world.staging[name]]
      modifies this
      ensures Within(before, r, name, mark)
      ensures name in world.staging && world.staging == before.staging[name := world.staging[name]]
      ensures ok ==> r.path in world.visible && world.visible[r.path] == r.key
      ensures r.path in before.visible ==> !ok && world.visible == before.visible
    {
      hide OthersKept, Owned;
      ok := *;
      if !ok || !Free(world.visible, world.disk.host, r.path) { return false; }
      world := world.(visible := world.visible[r.path := r.key], staging := world.staging[name := None]);
      assert world.staging == before.staging[name := None];
      KillPoint(before, r, name, mark);
      ok := *;
    }

    /** Create. `name` is the staging directory that mkdtemp makes; it is gone again at the return. */
    method Create(r: Request, name: nat) returns (ok: bool)
      requires name !in world.staging && Tied(world.Here()) && world.store.image.attached
      requires r.key.inode != 0 && |world.store.history| < 0x1_0000_0000_0000_0000
      modifies this
      ensures Within(old(world), r, name, |old(moments)|) && world.staging == old(world).staging
      ensures ok ==> Creatable(r.mode) && r.path in world.visible && world.visible[r.path] == r.key
      ensures r.path in old(world).visible ==> !ok && world.visible == old(world).visible
    {
      hide Creatable, Owned, Request.Owner, Free, R.CrashOk;
      ghost var before, mark := world, |moments|;
      world := world.(staging := world.staging[name := None]);
      KillPoint(before, r, name, mark);
      hide OthersKept, Partial;
      ok := Build(r, name, before, mark);
      if ok {
        ok := Record(r, name, before, mark);
        if ok {
          OwnedNow(world.disk, r);
          ok := Publish(r, name, before, mark);
        }
      }
      CleanUp(r, name, before, mark);
    }

    /** unlink of the item, which has no effect once it was renamed, and rmdir of the staging directory. */
    method CleanUp(r: Request, name: nat, ghost before: World, ghost mark: nat)
      requires Within(before, r, name, mark) && name !in before.staging
      requires name in world.staging && world.staging == before.staging[name := world.staging[name]]
      modifies this
      ensures Within(before, r, name, mark) && world == old(world).(staging := before.staging)
    {
      hide Owned, OthersKept, Free;
      world := world.(staging := world.staging[name := None]);
      assert world.staging == before.staging[name := None];
      KillPoint(before, r, name, mark);
      world := world.(staging := world.staging - {name});
      assert world.staging == before.staging;
      KillPoint(before, r, name, mark);
    }

    /** Since kill point number `mark`, a startup has stayed within Restarting. */
    ghost predicate Reopening(before: World, mark: nat)
      reads this
      requires Sound(before.Root(), before.disk)
    {
      && Restarting(before, world) && mark <= |moments|
      && forall i | mark <= i < |moments| :: Restarting(before, moments[i])
    }

    /** Removes what is staged, in any order. */
    method Discard(ghost before: World, ghost mark: nat) returns (ok: bool)
      requires Sound(before.Root(), before.disk) && Reopening(before, mark) && world.disk == before.disk
      modifies this
      ensures Reopening(before, mark) && world == old(world).(staging := world.staging)
      ensures ok ==> world.staging == map[]
    {
      hide InstantOk, Sound;
      ok := true;
      while world.staging != map[]
        invariant Reopening(before, mark) && world == old(world).(staging := world.staging)
        decreases world.staging.Keys
      {
        ok := *;
        if !ok { return; }
        var name :| name in world.staging;
        world := world.(staging := world.staging - {name});
        moments := moments + [world];
      }
    }

    /** The first opener of the next session group: discard what is staged, recover, scan. It may fail anywhere. */
    method FirstOpen() returns (ok: bool)
      requires world.Ok() && |world.store.history| + |world.visible| <= 0x1_0000_0000_0000_0000
      modifies this
      ensures Reopening(old(world), |old(moments)|)
      ensures ok ==> world.staging == map[] && Imported(world.Root(), world.disk) && world.store.image.attached
    {
      hide InstantOk, Sound, Tied, Imported;
      ghost var before, mark := world, |moments|;
      NothingYet(world);
      ok := Discard(before, mark);
      if !ok { return; }
      var instants;
      ok, instants := StartUp(world.Root(), world.Here());
      ghost var discarded := world;
      moments := moments + WorldsAt(world, instants);
      world := world.(disk := instants[|instants| - 1].disk, store := instants[|instants| - 1].store);
      forall i | mark <= i < |moments| ensures Restarting(before, moments[i]) {
        if i >= |moments| - |instants| {
          assert instants[i - (|moments| - |instants|)] in instants;
        }
      }
    }
  }

  lemma OwnedNow(d: Disk, r: Request)
    requires r.key in d.recorded && d.recorded[r.key] == r.Owner()
    requires r.key in d.host && Kind(d.host[r.key]) == Kind(r.mode)
    requires IsLink(r.mode) || d.host[r.key] == Widened(Kind(r.mode) * 0x1000, r.mode)
    ensures Owned(d, r)
  {
  }

  // ----- Runs of creations and startups

  /** What may be found at any instant of a startup: every file means what it meant, and what is staged is going. */
  ghost predicate Restarting(before: World, now: World)
    requires Sound(before.Root(), before.disk)
  {
    && now.visible == before.visible && now.births == before.births
    && now.staging.Keys <= before.staging.Keys
    && InstantOk(before.Root(), before.disk, now.Here())
  }

  lemma NothingYet(w: World)
    requires w.Ok()
    ensures Restarting(w, w)
  {
    SameMeaningHere(w.Root(), w.disk);
    BirthsHere(w.Root(), w.disk);
  }

  datatype Work = Creation(request: Request, name: nat) | Restart

  /** The kernel has made the inode, so nothing visible names it, and from now on stat reports its birth. */
  function Reported(w: World, r: Request): World {
    w.(births := w.births[r.key := r.birth])
  }

  ghost predicate WorkStep(before: World, work: Work, now: World) {
    match work
    case Creation(r, name) =>
      r.key.inode != 0 && r.key !in before.visible.Values && Partial(Reported(before, r), r, name, now)
    case Restart =>
      Sound(before.Root(), before.disk) && Restarting(before, now)
  }

  ghost predicate WorkRun(worlds: seq<World>, works: seq<Work>) {
    && |worlds| == |works| + 1
    && forall i | 0 <= i < |works| :: WorkStep(worlds[i], works[i], worlds[i + 1])
  }

  /** What a file is meant to be, and whether that is on record. */
  datatype Promise = Promise(attributes: Attributes, onRecord: bool)

  ghost predicate Keeps(w: World, path: Path, promise: Promise) {
    && path in w.visible && w.visible[path] in w.disk.host && w.visible[path] in w.births
    && Meant(w.disk, w.visible[path], w.births[w.visible[path]]) == promise.attributes
    && (promise.onRecord ==> Tracked(w.disk, w.visible[path], w.births[w.visible[path]]))
  }

  /** Every path in `promised` is visible, and if startups meet it, the promise is kept. */
  ghost predicate Honoured(w: World, promised: map<Path, Promise>) {
    forall p | p in promised :: p in w.visible && (Met(w.Root(), w.disk, p) ==> Keeps(w, p, promised[p]))
  }

  /** The promises after a step: one more if a new path has appeared. */
  function Promised(promised: map<Path, Promise>, work: Work, before: World, now: World): map<Path, Promise> {
    if work.Creation? && work.request.path !in before.visible && work.request.path in now.visible
    then promised[work.request.path := Promise(work.request.Asked(), true)] else promised
  }

  /** What every visible file is meant to be before any work, and what each creation asks for. */
  ghost function Promises(worlds: seq<World>, works: seq<Work>): map<Path, Promise>
    requires |worlds| == |works| + 1 && Sound(worlds[0].Root(), worlds[0].disk)
  {
    if works == [] then InitialPromises(worlds[0])
    else
      var n := |works| - 1;
      Promised(Promises(worlds[..n + 1], works[..n]), works[n], worlds[n], worlds[n + 1])
  }

  /** What the file that a path names is meant to be. */
  ghost function MeantAt(w: World, path: Path): Promise
    requires Sound(w.Root(), w.disk) && path in w.visible
  {
    assert w.visible[path] in w.Root().Keys();
    var key, birth := w.visible[path], w.births[w.visible[path]];
    Promise(Meant(w.disk, key, birth), Tracked(w.disk, key, birth))
  }

  ghost function InitialPromises(w: World): map<Path, Promise>
    requires Sound(w.Root(), w.disk)
  {
    map p | p in w.visible :: MeantAt(w, p)
  }

  lemma OtherKept(a: Disk, b: Disk, key: Key, other: Key, birth: Birth)
    requires OthersKept(a, b, key) && other != key && other in a.host
    ensures other in b.host && b.host[other] == a.host[other]
    ensures Meant(b, other, birth) == Meant(a, other, birth)
    ensures Tracked(a, other, birth) <==> Tracked(b, other, birth)
  {
  }

  /** Files other than the one being created keep what they are meant to be, and their records. */
  lemma OthersMean(before: World, r: Request, name: nat, now: World, p: Path)
    requires Partial(Reported(before, r), r, name, now) && Sound(before.Root(), before.disk)
    requires r.key !in before.visible.Values && p in before.visible
    ensures FileKept(before, now, p)
  {
    hide Owned, Tied, OthersKept, Meant, Tracked, Kind, IsDirectory;
    var key := before.visible[p];
    assert key in before.visible.Values && key in before.Root().Keys();
    OtherKept(before.disk, now.disk, r.key, key, before.births[key]);
  }

  /** The new file means what was asked for, on record. */
  lemma NewMeans(before: World, r: Request, name: nat, now: World)
    requires Partial(Reported(before, r), r, name, now) && now.visible != before.visible
    ensures now.visible == before.visible[r.path := r.key] && r.key in now.births
    ensures Free(before.visible, now.disk.host, r.path)
    ensures Keeps(now, r.path, Promise(r.Asked(), true))
  {
    hide Kind, IsDirectory;
  }

  /** A visible file is where it was, and means what it meant. */
  ghost predicate FileKept(before: World, now: World, p: Path) {
    && p in before.visible && p in now.visible && now.visible[p] == before.visible[p]
    && before.visible[p] in before.disk.host && before.visible[p] in before.births
    && now.visible[p] in now.births && now.visible[p].inode != 0 && now.visible[p] in now.disk.host
    && now.disk.host[now.visible[p]] == before.disk.host[before.visible[p]]
    && Meant(now.disk, now.visible[p], now.births[now.visible[p]])
       == Meant(before.disk, before.visible[p], before.births[before.visible[p]])
    && (Tracked(before.disk, before.visible[p], before.births[before.visible[p]]) ==>
          Tracked(now.disk, now.visible[p], now.births[now.visible[p]]))
  }

  /** Files that are kept are met as before. */
  lemma {:induction false} KeptMet(before: World, now: World, p: Path)
    requires Sound(before.Root(), before.disk) && forall q | q in before.visible :: FileKept(before, now, q)
    requires p in before.visible
    ensures Met(before.Root(), before.disk, p) <==> Met(now.Root(), now.disk, p)
    decreases |p|
  {
    hide Meant, Tracked;
    assert FileKept(before, now, p);
    if p != [] {
      assert before.Root().Valid() && Parent(p) in before.visible;
      assert FileKept(before, now, Parent(p));
      KeptMet(before, now, Parent(p));
    }
  }

  lemma ShownSound(before: World, r: Request, now: World)
    requires Sound(before.Root(), before.disk) && forall p | p in before.visible :: FileKept(before, now, p)
    requires now.visible == before.visible
             || (now.visible == before.visible[r.path := r.key] && Free(before.visible, now.disk.host, r.path)
                 && r.key.inode != 0 && r.key in now.births && r.key in now.disk.host)
    ensures Sound(now.Root(), now.disk)
  {
    hide Meant, Kind, IsDirectory, Tracked;
    assert before.Root().Valid() && forall p | p in before.visible && p != [] ::
             Parent(p) in before.visible && IsDirectory(before.disk.host[before.visible[Parent(p)]]);
    hide Sound;
    forall p | p in now.visible ensures FileSound(now, p) {
      assert p in before.visible || p == r.path;
    }
    AllSound(now);
  }

  /** The part of Sound that concerns one path. */
  ghost predicate FileSound(w: World, p: Path) {
    && p in w.visible && w.visible[p] in w.births && w.visible[p].inode != 0 && w.visible[p] in w.disk.host
    && (p != [] ==>
          && Parent(p) in w.visible && w.visible[Parent(p)] in w.disk.host
          && IsDirectory(w.disk.host[w.visible[Parent(p)]]))
  }

  lemma AllSound(w: World)
    requires [] in w.visible && forall p | p in w.visible :: FileSound(w, p)
    ensures Sound(w.Root(), w.disk)
  {
    hide IsDirectory;
    assert w.Root().Valid();
  }

  /** At no instant of a creation does a file that was visible mean anything else; the new one is as asked for. */
  lemma CreationKeeps(before: World, r: Request, name: nat, now: World)
    requires Partial(Reported(before, r), r, name, now) && Sound(before.Root(), before.disk)
    requires r.key.inode != 0 && r.key !in before.visible.Values
    ensures Sound(now.Root(), now.disk)
    ensures forall p | p in before.visible ::
              FileKept(before, now, p) && (Met(before.Root(), before.disk, p) <==> Met(now.Root(), now.disk, p))
    ensures now.visible == before.visible
            || (r.path !in before.visible && now.visible == before.visible[r.path := r.key]
                && Keeps(now, r.path, Promise(r.Asked(), true)))
  {
    forall p | p in before.visible ensures FileKept(before, now, p) {
      OthersMean(before, r, name, now, p);
    }
    if now.visible != before.visible { NewMeans(before, r, name, now); }
    hide FileKept, Partial, Sound, Keeps, Meant, Tracked;
    assert now.visible == before.visible || (now.visible == before.visible[r.path := r.key] && r.key in now.disk.host) by {
      if now.visible != before.visible { KeptIsThere(now, r); }
    }
    ShownSound(before, r, now);
    forall p | p in before.visible
      ensures Met(before.Root(), before.disk, p) <==> Met(now.Root(), now.disk, p)
    {
      KeptMet(before, now, p);
    }
  }

  lemma KeptIsThere(now: World, r: Request)
    requires Keeps(now, r.path, Promise(r.Asked(), true)) && r.path in now.visible && now.visible[r.path] == r.key
    ensures r.key in now.disk.host
  {
  }

  lemma CreationHonours(before: World, r: Request, name: nat, now: World, promised: map<Path, Promise>)
    requires Sound(before.Root(), before.disk) && WorkStep(before, Creation(r, name), now) && Honoured(before, promised)
    requires promised.Keys == before.visible.Keys
    ensures now.Ok()
    ensures var next := Promised(promised, Creation(r, name), before, now);
            Honoured(now, next) && next.Keys == now.visible.Keys
  {
    hide Meant, Partial, Sound, Tied, Tracked, Met;
    CreationKeeps(before, r, name, now);
    TiedNow(Reported(before, r), r, name, now);
    forall p | p in promised
      ensures p in now.visible && (Met(now.Root(), now.disk, p) ==> Keeps(now, p, promised[p]))
    {
      assert FileKept(before, now, p);
    }
    hide Keeps, FileKept;
  }

  lemma RestartHonours(before: World, now: World, promised: map<Path, Promise>)
    requires Sound(before.Root(), before.disk) && WorkStep(before, Restart, now) && Honoured(before, promised)
    ensures now.Ok() && Honoured(now, promised)
  {
    MeaningIsSound(before.Root(), before.disk, now.disk);
    hide Meant, Sound, Tied, BirthsFrom, Met, MetKeys, Tracked, Fit, Kind;
    forall p | p in promised
      ensures p in now.visible && (Met(now.Root(), now.disk, p) ==> Keeps(now, p, promised[p]))
    {
      MetSame(before.Root(), before.disk, now.disk, p);
      if Met(before.Root(), before.disk, p) {
        MetKey(before.Root(), before.disk, p);
        assert FileSame(before.disk, now.disk, before.visible[p], before.births[before.visible[p]]);
      }
    }
  }

  lemma StepHonours(before: World, work: Work, now: World, promised: map<Path, Promise>)
    requires Sound(before.Root(), before.disk) && WorkStep(before, work, now) && Honoured(before, promised)
    requires promised.Keys == before.visible.Keys
    ensures now.Ok() && Honoured(now, Promised(promised, work, before, now))
    ensures Promised(promised, work, before, now).Keys == now.visible.Keys
  {
    if work.Creation? {
      CreationHonours(before, work.request, work.name, now, promised);
    } else {
      RestartHonours(before, now, promised);
    }
    hide Sound, Partial, InstantOk, Honoured, Tied;
  }

  lemma InitialHonoured(w: World)
    requires Sound(w.Root(), w.disk)
    ensures Honoured(w, InitialPromises(w)) && InitialPromises(w).Keys == w.visible.Keys
  {
    hide Met, Meant, Tracked;
    forall p | p in w.visible ensures w.visible[p] in w.Root().Keys() {
    }
  }

  /**
    In every run of creations and startups, each completed, failed or killed at some point, every visible path that
    startups meet names a file that is meant to be what its creator asked for, and is on record as such, or what it was
    meant to be before the run. The others are below a directory that is on record as something else; see Met.
   */
  lemma {:induction false} CreatedFilesAreOwned(worlds: seq<World>, works: seq<Work>)
    requires WorkRun(worlds, works) && worlds[0].Ok()
    ensures worlds[|works|].Ok()
    ensures Honoured(worlds[|works|], Promises(worlds, works))
    ensures Promises(worlds, works).Keys == worlds[|works|].visible.Keys
  {
    hide Sound, WorkStep, InitialPromises, Honoured, Promised;
    if works == [] {
      InitialHonoured(worlds[0]);
    } else {
      var n := |works| - 1;
      CreatedFilesAreOwned(worlds[..n + 1], works[..n]);
      StepHonours(worlds[n], works[n], worlds[n + 1], Promises(worlds[..n + 1], works[..n]));
    }
  }

  /** A completed startup has on record what was promised of the files it meets, and no record of anything that was only staged. */
  lemma RestartKeepsPromises(before: World, now: World, promised: map<Path, Promise>)
    requires Sound(before.Root(), before.disk) && Restarting(before, now) && Imported(now.Root(), now.disk)
    requires Honoured(before, promised)
    ensures forall p | p in promised && Met(now.Root(), now.disk, p) ::
              && p in now.visible && now.visible[p] in now.disk.recorded
              && AttributesOf(now.disk.recorded[now.visible[p]]) == promised[p].attributes
    ensures forall k | k in now.disk.recorded :: exists p | p in now.visible :: now.visible[p] == k
  {
    RestartHonours(before, now, promised);
    hide Meant, Sound, Tied, BirthsFrom, Met, Tracked, Fit, Kind, SameMeaning;
    forall p | p in promised && Met(now.Root(), now.disk, p)
      ensures p in now.visible && now.visible[p] in now.disk.recorded
      ensures AttributesOf(now.disk.recorded[now.visible[p]]) == promised[p].attributes
    {
      MetKey(now.Root(), now.disk, p);
      assert FileImported(now.disk, now.visible[p], now.births[now.visible[p]]);
    }
  }

  /** Creations and startups one after the other, each ended by itself or killed. */
  method Serve(start: World, works: seq<Work>) returns (worlds: seq<World>, done: seq<Work>)
    requires start.Ok()
    ensures WorkRun(worlds, done) && worlds[0] == start && |done| <= |works|
    ensures var end := worlds[|done|];
            end.Ok() && Honoured(end, Promises(worlds, done)) && Promises(worlds, done).Keys == end.visible.Keys
  {
    hide World.Ok, WorkStep, Sound, Tied;
    worlds, done := [start], [];
    for i := 0 to |works|
      invariant |done| <= i && WorkRun(worlds, done) && worlds[0] == start && worlds[|done|].Ok()
    {
      var now := Perform(worlds[|done|], works[i]);
      if now.Some? {
        OneMoreStep(worlds, done, works[i], now.value);
        worlds, done := worlds + [now.value], done + [works[i]];
      }
    }
    assert Sound(start.Root(), start.disk) by { SoundOf(start); }
    CreatedFilesAreOwned(worlds, done);
  }

  lemma SoundOf(w: World)
    requires w.Ok()
    ensures Sound(w.Root(), w.disk) && Tied(w.Here())
  {
  }

  lemma OneMoreStep(worlds: seq<World>, done: seq<Work>, work: Work, now: World)
    requires WorkRun(worlds, done) && WorkStep(worlds[|done|], work, now)
    ensures WorkRun(worlds + [now], done + [work])
  {
    hide WorkStep;
    var ws, all := worlds + [now], done + [work];
    forall i | 0 <= i < |all| ensures WorkStep(ws[i], all[i], ws[i + 1]) {
      if i < |done| { assert WorkStep(worlds[i], done[i], worlds[i + 1]); }
    }
  }

  /**
    One piece of work, up to its end or to one of its kill points. Creating needs an open store, a new inode
    and a new staging directory; without them, or when sequence numbers could run out, nothing is done.
   */
  method Perform(w: World, work: Work) returns (now: Option<World>)
    requires w.Ok()
    ensures now.Some? ==> WorkStep(w, work, now.value) && now.value.Ok()
  {
    hide Partial, InstantOk, Tied, Sound;
    SoundOf(w);
    match work
    case Creation(r, name) =>
      if r.key.inode == 0 || r.key in w.visible.Values || name in w.staging || !w.store.image.attached
         || |w.store.history| >= 0x1_0000_0000_0000_0000 {
        return None;
      }
      var creator := new Creator(Reported(w, r));
      var _ := creator.Create(r, name);
      var end := Ended(creator.moments, creator.world);
      now := Some(end);
      CreationOk(w, r, name, now.value);
    case Restart =>
      if |w.store.history| + |w.visible| > 0x1_0000_0000_0000_0000 { return None; }
      var creator := new Creator(w);
      var _ := creator.FirstOpen();
      var end := Ended(creator.moments, creator.world);
      now := Some(end);
      RestartOk(w, now.value);
  }

  lemma CreationOk(w: World, r: Request, name: nat, now: World)
    requires w.Ok() && Partial(Reported(w, r), r, name, now)
    requires r.key.inode != 0 && r.key !in w.visible.Values
    ensures now.Ok()
  {
    hide Sound, OthersKept, Owned, R.CrashOk;
    CreationKeeps(w, r, name, now);
  }

  lemma RestartOk(w: World, now: World)
    requires w.Ok() && Restarting(w, now)
    ensures now.Ok()
  {
    MeaningIsSound(w.Root(), w.disk, now.disk);
  }

  /** Where a process ends: at one of its kill points, or by itself. */
  method Ended(moments: seq<World>, world: World) returns (end: World)
    ensures end in moments || end == world
  {
    var killed: int := *;
    end := if 0 <= killed < |moments| then moments[killed] else world;
  }
}
