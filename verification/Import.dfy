/**
  The startup scan: it makes every file of the rootfs accessible to the host process
  and records, for each, the owner and mode that guests are meant to see. A scan may
  be killed anywhere; what a later scan would record of the files it meets never changes.
 */
module Import {
  import opened Types
  import opened FileTable
  import R = Runs
  import S = Store

  type Path = seq<string>
  type Mode = uint32

  // ----- Mode bits

  function Kind(mode: nat): nat { mode / 0x1000 }

  function PermBits(mode: nat): (bits: nat)
    ensures bits < 0x1000
  {
    mode % 0x1000
  }

  predicate IsDirectory(mode: Mode) { Kind(mode) % 16 == 4 }

  predicate IsLink(mode: Mode) { Kind(mode) % 16 == 10 }

  /** The kinds of files by the modes that stat reports for them: S_IFDIR is 040000, S_IFLNK 0120000. */
  lemma KindsExactly(mode: Mode)
    ensures IsDirectory(mode) <==> 0x4000 <= mode % 0x1_0000 < 0x5000
    ensures IsLink(mode) <==> 0xA000 <= mode % 0x1_0000 < 0xB000
  {
    assert mode % 0x1_0000 / 0x1000 == mode / 0x1000 % 16;
  }

  /** Owner read, write and search (0700) if the file is read as a directory, read and write (0600) if not. */
  predicate Fit(kind: Mode, host: Mode) {
    if IsDirectory(kind) then PermBits(host) / 64 % 8 == 7 else PermBits(host) / 128 % 4 == 3
  }

  predicate Accessible(mode: Mode) { Fit(mode, mode) }

  lemma FitAsFile(kind: Mode, host: Mode)
    requires PermBits(host) / 64 % 8 == 7
    ensures Fit(kind, host)
  {
  }

  /** `bits | 0700` */
  function Or700(bits: nat): (r: nat)
    requires bits < 0x1000
    ensures r < 0x1000 && r / 64 % 8 == 7
  {
    bits / 512 * 512 + 448 + bits % 64
  }

  /** `bits | 0600` */
  function Or600(bits: nat): (r: nat)
    requires bits < 0x1000
    ensures r < 0x1000 && r / 128 % 4 == 3
  {
    bits / 512 * 512 + 384 + bits % 128
  }

  lemma Parts(kind: nat, bits: nat)
    requires bits < 0x1000
    ensures Kind(kind * 0x1000 + bits) == kind && PermBits(kind * 0x1000 + bits) == bits
  {
  }

  /** What chmod makes of a host mode: `(bits & 07777) | 0700` if the file is read as a directory, `| 0600` if not. */
  function Widened(host: Mode, bits: Mode): (mode: Mode)
    ensures Kind(mode) == Kind(host) && Fit(bits, mode)
    ensures IsDirectory(mode) == IsDirectory(host) && IsLink(mode) == IsLink(host)
  {
    hide Or700, Or600, Kind, PermBits;
    var low := if IsDirectory(bits) then Or700(PermBits(bits)) else Or600(PermBits(bits));
    KindBounds(host);
    Parts(Kind(host), low);
    Kind(host) * 0x1000 + low
  }

  /** Widening again for the same bits changes nothing. */
  lemma WidenedTwice(host: Mode, bits: Mode)
    ensures Widened(Widened(host, bits), bits) == Widened(host, bits)
  {
    hide Or700, Or600, PermBits, IsDirectory;
    KindBounds(host);
    Parts(Kind(host), if IsDirectory(bits) then Or700(PermBits(bits)) else Or600(PermBits(bits)));
    hide Kind;
  }

  /** The scan touches the host mode: the host process has not got its access, and it is no link. */
  predicate Lacks(host: Mode) { !IsLink(host) && !Accessible(host) }

  lemma KindBounds(mode: Mode)
    ensures Kind(mode) < 0x10_0000
  {
  }

  // ----- What a scan would record

  function Parent(p: Path): Path
    requires p != []
  {
    p[..|p| - 1]
  }

  datatype Birth = Birth(seconds: uint64, nanoseconds: uint32)

  /** The rootfs as the scan finds it: which file each path names, and when each was born, (0, 0) if unknown. */
  datatype Rootfs = Rootfs(files: map<Path, Key>, births: map<Key, Birth>)
  {
    ghost predicate Valid() {
      && [] in files
      && (forall p | p in files :: files[p] in births && files[p].inode != 0)
      && (forall p | p in files && p != [] :: Parent(p) in files)
    }

    ghost function Keys(): set<Key> { set p | p in files :: files[p] }
  }

  /** What changes on disk: the modes the host sees, and the map recovery would yield. */
  datatype Disk = Disk(host: map<Key, Mode>, recorded: Owners)

  datatype Attributes = Attributes(uid: uint32, gid: uint32, mode: Mode)

  function AttributesOf(o: FileOwner): Attributes { Attributes(o.uid, o.gid, o.mode) }

  predicate Known(b: Birth) { b.seconds != 0 || b.nanoseconds != 0 }

  /** A record belongs to a file unless both birth times are known and differ. */
  predicate Matches(saved: FileOwner, birth: Birth) {
    !saved.HasBirth() || !Known(birth)
    || (saved.birthSeconds == birth.seconds && saved.birthNanoseconds == birth.nanoseconds)
  }

  predicate Tracked(d: Disk, key: Key, birth: Birth) {
    key in d.recorded && Matches(d.recorded[key], birth)
  }

  /** The virtual owner and mode of a file: as recorded, else root-owned with its host mode. */
  function Meant(d: Disk, key: Key, birth: Birth): Attributes
    requires key in d.host
  {
    if Tracked(d, key, birth) then AttributesOf(d.recorded[key]) else Attributes(0, 0, d.host[key])
  }

  /** The record that the scan makes for a file it visits. */
  function Current(d: Disk, key: Key, birth: Birth): FileOwner
    requires key in d.host
  {
    var meant := Meant(d, key, birth);
    var b := if Tracked(d, key, birth) && !Known(birth)
             then Birth(d.recorded[key].birthSeconds, d.recorded[key].birthNanoseconds) else birth;
    FileOwner(key.device, key.inode, b.seconds, b.nanoseconds, meant.uid, meant.gid, meant.mode)
  }

  /**
    What a file is meant to have is what the record of its inode says, unless there is none, or both birth times
    are known and differ: then the inode has been used again, and the file is root's with its host mode. The record
    that the scan makes says the same, and bears the file's own birth time as soon as that is known.
   */
  lemma MeantByBirth(d: Disk, key: Key, birth: Birth)
    requires key in d.host
    ensures var of := Birth(0, 0);
            var saved := if key in d.recorded
                         then Birth(d.recorded[key].birthSeconds, d.recorded[key].birthNanoseconds) else of;
            var own := key in d.recorded && (saved == of || birth == of || saved == birth);
            var now := Current(d, key, birth);
            && Meant(d, key, birth) == (if own then Attributes(d.recorded[key].uid, d.recorded[key].gid, d.recorded[key].mode)
                                        else Attributes(0, 0, d.host[key]))
            && now.Id() == key && Attributes(now.uid, now.gid, now.mode) == Meant(d, key, birth)
            && Birth(now.birthSeconds, now.birthNanoseconds) == if birth == of && own then saved else birth
  {
  }

  /** Every file has a host mode, and what contains files is a directory. */
  ghost predicate Sound(r: Rootfs, d: Disk) {
    && r.Valid()
    && (forall key | key in r.Keys() :: key in d.host)
    && (forall p | p in r.files && p != [] :: IsDirectory(d.host[r.files[Parent(p)]]))
  }

  // ----- Which files a scan meets

  /** The scan takes the file for a directory: so it is on record, or, with no record of its own, on the host. */
  predicate Opens(r: Rootfs, d: Disk, p: Path) {
    && p in r.files && r.files[p] in r.births && r.files[p] in d.host
    && IsDirectory(Meant(d, r.files[p], r.births[r.files[p]]).mode)
  }

  /** It meets the root, and what is below a path that it meets and takes for a directory. */
  ghost predicate Met(r: Rootfs, d: Disk, p: Path)
    decreases |p|
  {
    p in r.files && (p == [] || (Met(r, d, Parent(p)) && Opens(r, d, Parent(p))))
  }

  ghost function MetKeys(r: Rootfs, d: Disk): set<Key> { set p | p in r.files && Met(r, d, p) :: r.files[p] }

  lemma MetKey(r: Rootfs, d: Disk, p: Path)
    requires Met(r, d, p)
    ensures p in r.files && r.files[p] in MetKeys(r, d) && r.files[p] in r.Keys()
  {
  }

  lemma MetKnown(r: Rootfs, d: Disk, key: Key)
    requires Sound(r, d) && key in MetKeys(r, d)
    ensures key in r.Keys() && key in d.host && key in r.births
  {
    var p :| p in r.files && Met(r, d, p) && r.files[p] == key;
    assert r.files[p] in r.Keys();
  }

  /** All files are met if and only if each directory that contains some is taken for one. */
  lemma {:induction false} AllMet(r: Rootfs, d: Disk)
    requires Sound(r, d)
    ensures (forall p | p in r.files :: Met(r, d, p)) <==> (forall p | p in r.files && p != [] :: Opens(r, d, Parent(p)))
    ensures (forall p | p in r.files :: Met(r, d, p)) ==> MetKeys(r, d) == r.Keys()
  {
    if forall p | p in r.files && p != [] :: Opens(r, d, Parent(p)) {
      forall p | p in r.files ensures Met(r, d, p) {
        MetBelow(r, d, p);
      }
    }
  }

  lemma {:induction false} MetBelow(r: Rootfs, d: Disk, p: Path)
    requires r.Valid() && p in r.files && forall q | q in r.files && q != [] :: Opens(r, d, Parent(q))
    ensures Met(r, d, p)
    decreases |p|
  {
    if p != [] { MetBelow(r, d, Parent(p)); }
  }

  // ----- What stays the same

  /** The file is meant to have the attributes it was meant to have; its record and its accessibility stay. */
  ghost predicate FileSame(a: Disk, b: Disk, key: Key, birth: Birth) {
    && key in a.host && key in b.host
    && Meant(a, key, birth) == Meant(b, key, birth)
    && Kind(a.host[key]) == Kind(b.host[key])
    && (Tracked(a, key, birth) ==> Tracked(b, key, birth))
    && (Fit(Meant(a, key, birth).mode, a.host[key]) ==> Fit(Meant(a, key, birth).mode, b.host[key]))
  }

  /** The file has not been touched, but its record may be gone. */
  ghost predicate FileLeft(a: Disk, b: Disk, key: Key) {
    && key in a.host && key in b.host && b.host[key] == a.host[key]
    && (key in b.recorded ==> key in a.recorded && b.recorded[key] == a.recorded[key])
  }

  /** Every file that the scan meets stays the same, and the others are left. */
  ghost predicate SameMeaning(r: Rootfs, a: Disk, b: Disk)
    requires Sound(r, a)
  {
    && Sound(r, b)
    && (forall key | key in MetKeys(r, a) :: key in r.births && FileSame(a, b, key, r.births[key]))
    && forall key | key in r.Keys() && key !in MetKeys(r, a) :: FileLeft(a, b, key)
  }

  /**
    A scan has completed: exactly the files it meets are recorded, as meant, and all are accessible as what they are
    taken for.
   */
  ghost predicate Imported(r: Rootfs, d: Disk) {
    && Sound(r, d)
    && d.recorded.Keys == MetKeys(r, d)
    && forall key | key in MetKeys(r, d) :: key in r.births && FileImported(d, key, r.births[key])
  }

  ghost predicate FileImported(d: Disk, key: Key, birth: Birth) {
    && key in d.host && key in d.recorded
    && AttributesOf(d.recorded[key]) == Meant(d, key, birth)
    && (IsDirectory(Meant(d, key, birth).mode) ==> IsDirectory(d.host[key]))
    && (IsLink(d.host[key]) || Fit(Meant(d, key, birth).mode, d.host[key]))
  }

  /** What stays the same is met as before. */
  lemma {:induction false} MetSame(r: Rootfs, a: Disk, b: Disk, p: Path)
    requires Sound(r, a) && SameMeaning(r, a, b)
    ensures Met(r, a, p) <==> Met(r, b, p)
    decreases |p|
  {
    hide Meant, Tracked, Fit, Kind, FileLeft, Sound;
    if p in r.files && p != [] {
      MetSame(r, a, b, Parent(p));
      if Met(r, a, Parent(p)) {
        MetKey(r, a, Parent(p));
      }
    }
  }

  lemma MetKeysSame(r: Rootfs, a: Disk, b: Disk)
    requires Sound(r, a) && SameMeaning(r, a, b)
    ensures MetKeys(r, a) == MetKeys(r, b)
  {
    hide SameMeaning, Sound, Met;
    forall p | p in r.files ensures Met(r, a, p) <==> Met(r, b, p) {
      MetSame(r, a, b, p);
    }
  }

  // ----- The steps of a scan

  /** Recording what is meant of a file that is met, and widening it once recorded, both leave every meaning alone. */
  lemma RecordKeeps(r: Rootfs, d: Disk, key: Key)
    requires Sound(r, d) && key in MetKeys(r, d)
    ensures key in r.births && key in d.host
    ensures var after := d.(recorded := FileTable.Stored(d.recorded, Current(d, key, r.births[key])));
            SameMeaning(r, d, after) && Tracked(after, key, r.births[key])
  {
    var after := d.(recorded := FileTable.Stored(d.recorded, Current(d, key, r.births[key])));
    hide Fit, Kind, Met;
    MetKnown(r, d, key);
    forall k | k in MetKeys(r, d) ensures k in r.births && FileSame(d, after, k, r.births[k]) {
      MetKnown(r, d, k);
    }
  }

  /** So does recording it in the table that was there before, if a power cut undoes the replacement in between. */
  lemma LateRecordKeeps(r: Rootfs, was: Disk, now: Disk, key: Key)
    requires Sound(r, was) && SameMeaning(r, was, now) && key in MetKeys(r, was)
    ensures key in r.births && key in now.host
    ensures SameMeaning(r, was, was.(recorded := FileTable.Stored(was.recorded, Current(now, key, r.births[key]))))
  {
    MetKnown(r, was, key);
    var after := was.(recorded := FileTable.Stored(was.recorded, Current(now, key, r.births[key])));
    hide Fit, Kind, Met;
    forall k | k in MetKeys(r, was) ensures k in r.births && FileSame(was, after, k, r.births[k]) {
      MetKnown(r, was, k);
    }
  }

  lemma WidenKeeps(r: Rootfs, d: Disk, key: Key, bits: Mode)
    requires Sound(r, d) && key in MetKeys(r, d) && key in r.births && Tracked(d, key, r.births[key])
    ensures key in d.host
    ensures bits == Meant(d, key, r.births[key]).mode ==>
              SameMeaning(r, d, d.(host := d.host[key := Widened(d.host[key], bits)]))
  {
    MetKnown(r, d, key);
    var after := d.(host := d.host[key := Widened(d.host[key], bits)]);
    if bits == Meant(d, key, r.births[key]).mode {
      hide Fit, Kind, Met, Widened, IsLink;
      forall k | k in MetKeys(r, d) ensures k in r.births && FileSame(d, after, k, r.births[k]) {
        MetKnown(r, d, k);
      }
    }
  }

  lemma SameMeaningTransitive(r: Rootfs, a: Disk, b: Disk, c: Disk)
    requires Sound(r, a) && SameMeaning(r, a, b) && SameMeaning(r, b, c)
    ensures SameMeaning(r, a, c)
  {
    MetKeysSame(r, a, b);
    hide Meant, Tracked, Fit, Kind, Sound, MetKeys;
  }

  /** A record of the scan: its file, what it says, and that it will be recognised as the file's. */
  ghost predicate Faithful(r: Rootfs, d: Disk, o: FileOwner) {
    && o.Id() in MetKeys(r, d) && o.Id() in d.host && o.Id() in r.births
    && AttributesOf(o) == Meant(d, o.Id(), r.births[o.Id()])
    && Matches(o, r.births[o.Id()])
  }

  lemma {:induction false} FoldSelects(m: Owners, owners: seq<FileOwner>)
    ensures forall k | k in Fold(m, owners) :: (k in m && Fold(m, owners)[k] == m[k])
              || (exists o | o in owners :: o.Id() == k && Fold(m, owners)[k] == o)
    ensures forall o | o in owners :: o.Id() in Fold(m, owners)
    decreases |owners|
  {
    if owners != [] {
      var after := FileTable.Stored(m, owners[0]);
      FoldSelects(after, owners[1..]);
      FoldKeeps(after, owners[1..]);
      assert forall o | o in owners :: o == owners[0] || o in owners[1..];
      forall k | k in Fold(m, owners) && !(k in m && Fold(m, owners)[k] == m[k])
        ensures exists o | o in owners :: o.Id() == k && Fold(m, owners)[k] == o
      {
        if k in after && Fold(m, owners)[k] == after[k] {
          assert owners[0] in owners && owners[0].Id() == k;
        } else {
          var o :| o in owners[1..] && o.Id() == k && Fold(m, owners)[k] == o;
          assert o in owners;
        }
      }
    }
  }

  /** Replacing all records by those of a scan that visited every file it meets leaves every meaning alone. */
  lemma ReplaceKeeps(r: Rootfs, d: Disk, owners: seq<FileOwner>)
    requires Sound(r, d)
    requires forall o | o in owners :: Faithful(r, d, o)
    requires forall key | key in MetKeys(r, d) :: exists o | o in owners :: o.Id() == key
    ensures var after := d.(recorded := Fold(map[], owners));
            && SameMeaning(r, d, after) && after.recorded.Keys == MetKeys(r, d)
            && forall key | key in MetKeys(r, d) :: key in r.births && Tracked(after, key, r.births[key])
  {
    var after := d.(recorded := Fold(map[], owners));
    FoldSelects(map[], owners);
    hide MetKeys, Fold;
    forall key | key in after.recorded
      ensures key in MetKeys(r, d) && key in d.host && key in r.births && Tracked(after, key, r.births[key])
              && AttributesOf(after.recorded[key]) == Meant(d, key, r.births[key])
    {
      var o :| o in owners && o.Id() == key && after.recorded[key] == o;
      assert Faithful(r, d, o);
    }
    forall key | key in MetKeys(r, d) ensures key in after.recorded {
      var o :| o in owners && o.Id() == key;
      assert o.Id() in after.recorded;
    }
    hide Fit, Kind;
  }

  // ----- The scan

  datatype LiveFile = LiveFile(path: Path, owner: FileOwner, widen: bool)

  ghost predicate Distinct<T>(s: seq<T>) {
    forall i, j | 0 <= i < j < |s| :: s[i] != s[j]
  }

  /** Every path that is met is visited, waiting, or below one that is waiting. */
  ghost predicate Frontier(r: Rootfs, d: Disk, visited: set<Path>, pending: seq<Path>) {
    && Distinct(pending)
    && visited <= r.files.Keys
    && (forall p | p in pending :: p in r.files && p !in visited)
    && (forall p | p in visited || p in pending :: Met(r, d, p) && (p == [] || Parent(p) in visited))
    && ([] in visited || [] in pending)
    && (forall p | p in r.files && p != [] && Parent(p) in visited && Opens(r, d, Parent(p)) :: p in visited || p in pending)
  }

  lemma FrontierStarts(r: Rootfs, d: Disk)
    requires r.Valid()
    ensures Frontier(r, d, {}, [[]])
  {
  }

  lemma FrontierWaits(r: Rootfs, d: Disk, visited: set<Path>, pending: seq<Path>, path: Path)
    requires Frontier(r, d, visited, pending) && path in pending
    ensures path in r.files && path !in visited && Met(r, d, path)
  {
  }

  lemma {:induction false} FrontierExhausted(r: Rootfs, d: Disk, visited: set<Path>, p: Path)
    requires Frontier(r, d, visited, [])
    ensures p in visited <==> Met(r, d, p)
    decreases |p|
  {
    if p in r.files && p != [] { FrontierExhausted(r, d, visited, Parent(p)); }
  }

  /** Two lists without repetitions, one after the other, if they share nothing. */
  lemma DistinctJoined<T>(a: seq<T>, b: seq<T>)
    requires Distinct(a) && Distinct(b) && forall x | x in b :: x !in a
    ensures Distinct(a + b)
  {
    var all := a + b;
    forall i, j | 0 <= i < j < |all| ensures all[i] != all[j] {
      if j >= |a| && i < |a| { assert all[j] in b && all[i] in a; }
    }
  }

  lemma DistinctLast<T>(a: seq<T>, x: T)
    requires Distinct(a + [x])
    ensures Distinct(a) && x !in a
  {
    var all := a + [x];
    forall i | 0 <= i < |a| ensures a[i] != x { assert all[i] != all[|a|]; }
    forall i, j | 0 <= i < j < |a| ensures a[i] != a[j] { assert all[i] != all[j]; }
  }

  /** Visiting a waiting path and putting its children on the stack, if it is taken for a directory, keeps the frontier. */
  lemma FrontierAdvances(r: Rootfs, d: Disk, visited: set<Path>, pending: seq<Path>, path: Path, children: seq<Path>)
    requires Frontier(r, d, visited, pending + [path]) && Distinct(children)
    requires forall p :: p in children <==> p in r.files && p != [] && Parent(p) == path && Opens(r, d, path)
    ensures Frontier(r, d, visited + {path}, pending + children)
  {
    DistinctLast(pending, path);
    var was, now := pending + [path], pending + children;
    assert forall c | c in children :: Met(r, d, path) ==> Met(r, d, c);
    hide Opens, Distinct, Met;
    assert forall p :: p in now <==> p in pending || p in children;
    assert forall p :: p in was <==> p in pending || p == path;
    assert path !in visited;
    assert forall c | c in children :: c !in visited && c !in was;
    DistinctJoined(pending, children);
  }

  /** What the scan knows of a file once it has identified it. */
  ghost predicate Seen(r: Rootfs, d: Disk, f: LiveFile) {
    && f.path in r.files && Met(r, d, f.path) && f.owner.Id() == r.files[f.path] && Faithful(r, d, f.owner)
    && var host := d.host[r.files[f.path]];
       (f.widen ==> !IsDirectory(f.owner.mode))
       && (IsDirectory(host) || !IsDirectory(f.owner.mode) ==> IsLink(host) || f.widen || Fit(f.owner.mode, host))
  }

  /** And once it has listed it: what is taken for a directory is one. */
  ghost predicate LiveOk(r: Rootfs, d: Disk, f: LiveFile) {
    && Seen(r, d, f)
    && (IsDirectory(f.owner.mode) ==> IsDirectory(d.host[r.files[f.path]]))
  }

  ghost predicate AllLive(r: Rootfs, d: Disk, live: seq<LiveFile>) {
    forall f | f in live :: LiveOk(r, d, f)
  }

  lemma AllLiveKept(r: Rootfs, d: Disk, after: Disk, live: seq<LiveFile>)
    requires Sound(r, d) && AllLive(r, d, live) && SameMeaning(r, d, after)
    ensures AllLive(r, after, live)
  {
    MetKeysSame(r, d, after);
    hide Met, MetKeys, Meant, Tracked, Fit, Sound, FileLeft;
    forall f | f in live ensures LiveOk(r, after, f) {
      MetSame(r, d, after, f.path);
      assert LiveOk(r, d, f);
    }
  }

  ghost predicate Covers(visited: set<Path>, live: seq<LiveFile>) {
    forall p | p in visited :: exists f | f in live :: f.path == p
  }

  function OwnersOf(live: seq<LiveFile>): (owners: seq<FileOwner>)
    ensures |owners| == |live| && forall i | 0 <= i < |live| :: owners[i] == live[i].owner
  {
    seq(|live|, i requires 0 <= i < |live| => live[i].owner)
  }

  /** The walk has come by every path that is met, and by no other. */
  ghost predicate Complete(r: Rootfs, d: Disk, live: seq<LiveFile>) {
    forall p :: Met(r, d, p) <==> exists f | f in live :: f.path == p
  }

  /** Replacing the records by those of a complete walk. */
  lemma LiveReplaces(r: Rootfs, d: Disk, live: seq<LiveFile>)
    requires Sound(r, d) && AllLive(r, d, live) && Complete(r, d, live)
    ensures var after := d.(recorded := Fold(map[], OwnersOf(live)));
            && SameMeaning(r, d, after) && AllLive(r, after, live)
            && after.recorded.Keys == MetKeys(r, d)
            && forall key | key in MetKeys(r, d) :: key in r.births && Tracked(after, key, r.births[key])
  {
    hide Met, Meant, Fit, Matches;
    var owners := OwnersOf(live);
    forall o | o in owners ensures Faithful(r, d, o) {
      var i :| 0 <= i < |owners| && owners[i] == o;
      assert LiveOk(r, d, live[i]);
    }
    forall key | key in MetKeys(r, d) ensures exists o | o in owners :: o.Id() == key {
      var p :| p in r.files && Met(r, d, p) && r.files[p] == key;
      var f :| f in live && f.path == p;
      var i :| 0 <= i < |live| && live[i] == f;
      assert LiveOk(r, d, f) && owners[i] in owners;
    }
    ReplaceKeeps(r, d, owners);
    hide LiveOk, Sound, SameMeaning;
    AllLiveKept(r, d, d.(recorded := Fold(map[], owners)), live);
  }

  ghost predicate Wide(d: Disk, f: LiveFile) {
    f.owner.Id() in d.host && Fit(f.owner.mode, d.host[f.owner.Id()])
  }

  /** The first `n` files of the walk that needed it have been widened. */
  ghost predicate WideUpTo(d: Disk, live: seq<LiveFile>, n: nat)
    requires n <= |live|
  {
    forall i | 0 <= i < n && live[i].widen :: Wide(d, live[i])
  }

  lemma WideKept(r: Rootfs, d: Disk, after: Disk, live: seq<LiveFile>, n: nat)
    requires Sound(r, d) && AllLive(r, d, live) && SameMeaning(r, d, after)
    requires n <= |live| && WideUpTo(d, live, n)
    ensures WideUpTo(after, live, n)
  {
    hide Met, MetKeys, Meant, Tracked, Fit, Sound, FileLeft, Kind;
    forall i | 0 <= i < n && live[i].widen ensures Wide(after, live[i]) {
      assert LiveOk(r, d, live[i]) && Wide(d, live[i]);
    }
  }

  /** When the files that needed it have been widened, the import is complete. */
  lemma ImportDone(r: Rootfs, d: Disk, live: seq<LiveFile>)
    requires Sound(r, d) && AllLive(r, d, live) && Complete(r, d, live) && d.recorded.Keys == MetKeys(r, d)
    requires forall key | key in MetKeys(r, d) :: key in r.births && Tracked(d, key, r.births[key])
    requires WideUpTo(d, live, |live|)
    ensures Imported(r, d)
  {
    hide Met, Fit, Matches, Kind;
    forall key | key in MetKeys(r, d) ensures key in r.births && FileImported(d, key, r.births[key]) {
      var p :| p in r.files && Met(r, d, p) && r.files[p] == key;
      var f :| f in live && f.path == p;
      var i :| 0 <= i < |live| && live[i] == f;
      assert LiveOk(r, d, f) && (live[i].widen ==> Wide(d, live[i]));
    }
  }

  // ----- The scanner and the store

  /** What a scan that is killed leaves: the host modes, and the store. */
  datatype Instant = Instant(disk: Disk, store: R.Moment)

  /** The store recovers to the records that the disk stands for. */
  ghost predicate Tied(i: Instant) {
    R.CrashOk(i.store) && i.store.history != [] && i.disk.recorded == R.Last(i.store.history)
  }

  /** A first opener is at work: it has recovered, and nobody else is attached. */
  ghost predicate Opening(m: R.Moment) {
    R.CrashOk(m) && R.Clean(m.image, m.history) && !m.image.dirty && !m.image.attached
  }

  /** A record has the birth time that was reported for its file, or that of the record there was at the start. */
  predicate BornOk(r: Rootfs, start: Disk, key: Key, o: FileOwner) {
    (key in r.births && o.birthSeconds == r.births[key].seconds && o.birthNanoseconds == r.births[key].nanoseconds)
    || (key in start.recorded && SameBirth(o, start.recorded[key]))
  }

  ghost predicate BirthsFrom(r: Rootfs, start: Disk, d: Disk) {
    forall key | key in r.Keys() && key in d.recorded :: BornOk(r, start, key, d.recorded[key])
  }

  ghost predicate LiveBorn(r: Rootfs, start: Disk, live: seq<LiveFile>) {
    forall f | f in live :: BornOk(r, start, f.owner.Id(), f.owner)
  }

  lemma CurrentBorn(r: Rootfs, start: Disk, d: Disk, key: Key)
    requires r.Valid() && key in r.Keys() && key in d.host && BirthsFrom(r, start, d)
    ensures BornOk(r, start, key, Current(d, key, r.births[key])) && Current(d, key, r.births[key]).Id() == key
  {
  }

  /** What a startup keeps, at every instant of it. */
  ghost predicate Startup(r: Rootfs, start: Disk, d: Disk)
    requires Sound(r, start)
  {
    SameMeaning(r, start, d) && BirthsFrom(r, start, d)
  }

  ghost predicate InstantOk(r: Rootfs, start: Disk, i: Instant)
    requires Sound(r, start)
  {
    Tied(i) && Startup(r, start, i.disk) && HostsKept(r, start, i.disk.host)
  }

  /** Host modes stay as they were found, but for files that lack access: these may have got the bits they are meant to have, widened. */
  ghost predicate HostsKept(r: Rootfs, start: Disk, host: map<Key, Mode>) {
    forall key | key in start.host ::
      key in host && (host[key] == start.host[key]
                      || (key in r.births && Lacks(start.host[key])
                          && host[key] == Widened(start.host[key], Meant(start, key, r.births[key]).mode)))
  }

  lemma LackedBefore(r: Rootfs, start: Disk, host: map<Key, Mode>, key: Key)
    requires HostsKept(r, start, host) && key in start.host
    ensures key in host && (Lacks(host[key]) ==> Lacks(start.host[key]))
  {
  }

  lemma OneMoreWidened(r: Rootfs, start: Disk, host: map<Key, Mode>, key: Key)
    requires HostsKept(r, start, host) && key in start.host && key in r.births && Lacks(start.host[key])
    ensures key in host
    ensures HostsKept(r, start, host[key := Widened(host[key], Meant(start, key, r.births[key]).mode)])
  {
    hide Meant, Widened, Lacks;
    WidenedTwice(start.host[key], Meant(start, key, r.births[key]).mode);
  }

  /** What a scan will widen lacked access from the start. */
  ghost predicate Wanting(start: Disk, f: LiveFile) {
    f.widen ==> f.owner.Id() in start.host && Lacks(start.host[f.owner.Id()])
  }

  ghost predicate AllWanting(start: Disk, live: seq<LiveFile>) { forall f | f in live :: Wanting(start, f) }

  /** The instants that the kill points of an operation of the store make, while the host modes stay. */
  function Instants(host: map<Key, Mode>, moments: seq<R.Moment>): (instants: seq<Instant>)
    requires forall m | m in moments :: m.history != []
    ensures |instants| == |moments|
    ensures forall i | 0 <= i < |moments| ::
              instants[i] == Instant(Disk(host, R.Last(moments[i].history)), moments[i])
  {
    seq(|moments|, i requires 0 <= i < |moments| => Instant(Disk(host, R.Last(moments[i].history)), moments[i]))
  }

  /** Each instant of setting the record that the scan makes for a file keeps the meaning. */
  lemma RecordStep(r: Rootfs, start: Disk, now: Instant, key: Key, e: R.Event, next: R.Moment)
    requires Sound(r, start) && InstantOk(r, start, now) && key in MetKeys(r, now.disk)
    requires key in now.disk.host && key in r.births
    requires R.Step(now.store, e, next)
    requires var o := Current(now.disk, key, r.births[key]); e == R.Killed(o) || (e.Returned? && e.owner == o)
    ensures next.history != []
    ensures var after := now.disk.(recorded := R.Last(next.history));
            && InstantOk(r, start, Instant(after, next)) && SameMeaning(r, now.disk, after) && Sound(r, after)
            && (e.Returned? && e.ok ==> Tracked(after, key, r.births[key]))
  {
    var o := Current(now.disk, key, r.births[key]);
    var op := R.OpOf(now.store, e, next);
    var after, stored := now.disk.(recorded := R.Last(next.history)), now.disk.(recorded := FileTable.Stored(now.disk.recorded, o));
    SameMeaningHere(r, now.disk);
    RecordKeeps(r, now.disk, key);
    MetKnown(r, now.disk, key);
    CurrentBorn(r, start, now.disk, key);
    hide BornOk, SameMeaning, R.Step, R.CrashOk, Sound, Current, Tracked, Met, MetKeys, HostsKept;
    assert after == now.disk || after == stored;
    SameMeaningTransitive(r, start, now.disk, after);
    MeaningIsSound(r, now.disk, after);
  }

  lemma MeaningIsSound(r: Rootfs, a: Disk, b: Disk)
    requires Sound(r, a) && SameMeaning(r, a, b)
    ensures Sound(r, b)
  {
  }

  lemma SameMeaningHere(r: Rootfs, d: Disk)
    requires Sound(r, d)
    ensures SameMeaning(r, d, d)
  {
    hide Meant, Tracked, Fit, Kind, Met;
    forall key | key in MetKeys(r, d) ensures key in r.births && FileSame(d, d, key, r.births[key]) {
      MetKnown(r, d, key);
    }
  }

  lemma RewrittenTells(m: R.Moment, owners: seq<FileOwner>, ok: bool, next: R.Moment)
    requires R.Step(m, R.Rewritten(owners, ok), next) && m.history != []
    ensures R.CrashOk(next) && next.history != [] && |next.history| == |m.history|
    ensures R.Last(next.history) == Fold(map[], owners) || (!ok && R.Last(next.history) == R.Last(m.history))
  {
    hide R.CrashOk, Fold;
  }

  lemma ReplacedBorn(r: Rootfs, start: Disk, live: seq<LiveFile>, d: Disk)
    requires LiveBorn(r, start, live)
    ensures BirthsFrom(r, start, d.(recorded := Fold(map[], OwnersOf(live))))
  {
    hide BornOk, Fold;
    var owners := OwnersOf(live);
    FoldSelects(map[], owners);
    forall key | key in Fold(map[], owners) ensures BornOk(r, start, key, Fold(map[], owners)[key]) {
      var o :| o in owners && o.Id() == key && Fold(map[], owners)[key] == o;
      var i :| 0 <= i < |owners| && owners[i] == o;
      assert live[i] in live;
    }
  }

  /** Each instant of the replacement of all records keeps it too. */
  lemma ReplaceStep(r: Rootfs, start: Disk, now: Instant, live: seq<LiveFile>, ok: bool, next: R.Moment)
    requires Sound(r, start) && InstantOk(r, start, now) && Sound(r, now.disk) && AllLive(r, now.disk, live)
    requires Complete(r, now.disk, live) && LiveBorn(r, start, live)
    requires R.Step(now.store, R.Rewritten(OwnersOf(live), ok), next)
    ensures next.history != [] && |next.history| == |now.store.history|
    ensures var after := now.disk.(recorded := R.Last(next.history));
            && InstantOk(r, start, Instant(after, next)) && Sound(r, after)
            && SameMeaning(r, now.disk, after)
            && (ok ==> AllLive(r, after, live) && after.recorded.Keys == MetKeys(r, now.disk)
                       && forall key | key in MetKeys(r, now.disk) :: key in r.births && Tracked(after, key, r.births[key]))
  {
    hide SameMeaning, R.Step, R.CrashOk, Sound, Tracked, AllLive, Fold, OwnersOf, LiveOk, Complete, Met, MetKeys,
         HostsKept;
    RewrittenTells(now.store, OwnersOf(live), ok, next);
    var after, replaced := now.disk.(recorded := R.Last(next.history)), now.disk.(recorded := Fold(map[], OwnersOf(live)));
    assert after == replaced || (!ok && after == now.disk);
    SameMeaningHere(r, now.disk);
    LiveReplaces(r, now.disk, live);
    ReplacedBorn(r, start, live, now.disk);
    hide BirthsFrom, LiveBorn;
    SameMeaningTransitive(r, start, now.disk, after);
    MeaningIsSound(r, now.disk, after);
  }

  lemma RecordMoments(r: Rootfs, start: Disk, now: Instant, key: Key, moments: seq<R.Moment>)
    requires Sound(r, start) && InstantOk(r, start, now) && key in MetKeys(r, now.disk)
    requires key in now.disk.host && key in r.births
    requires forall m | m in moments :: R.Step(now.store, R.Killed(Current(now.disk, key, r.births[key])), m)
    ensures forall m | m in moments :: m.history != []
    ensures forall i | i in Instants(now.disk.host, moments) :: InstantOk(r, start, i)
  {
    var owner := Current(now.disk, key, r.births[key]);
    hide InstantOk, R.Step, Current, Sound, Met, MetKeys;
    forall m | m in moments ensures m.history != []
        && InstantOk(r, start, Instant(Disk(now.disk.host, R.Last(m.history)), m))
    {
      RecordStep(r, start, now, key, R.Killed(owner), m);
    }
  }

  lemma ReplaceMoments(r: Rootfs, start: Disk, now: Instant, live: seq<LiveFile>, moments: seq<R.Moment>)
    requires Sound(r, start) && InstantOk(r, start, now) && Sound(r, now.disk) && AllLive(r, now.disk, live)
    requires Complete(r, now.disk, live) && LiveBorn(r, start, live)
    requires forall m | m in moments :: R.Step(now.store, R.Rewritten(OwnersOf(live), false), m)
    ensures forall m | m in moments :: m.history != []
    ensures forall i | i in Instants(now.disk.host, moments) :: InstantOk(r, start, i)
  {
    hide InstantOk, R.Step, Sound, AllLive, LiveBorn, Complete;
    forall m | m in moments ensures m.history != []
        && InstantOk(r, start, Instant(Disk(now.disk.host, R.Last(m.history)), m))
    {
      ReplaceStep(r, start, now, live, false, m);
    }
  }

  lemma MeantSince(r: Rootfs, start: Disk, d: Disk, key: Key)
    requires Sound(r, start) && SameMeaning(r, start, d) && key in MetKeys(r, d) && key in r.births
    ensures key in start.host && key in d.host && Meant(start, key, r.births[key]) == Meant(d, key, r.births[key])
  {
    MetKeysSame(r, start, d);
    hide Meant, Met, Sound, Tracked, Fit, Kind;
  }

  class Scanner {
    const rootfs: Rootfs
    var disk: Disk
    var store: R.Moment
    var moments: seq<Instant>

    constructor (rootfs: Rootfs, disk: Disk, store: R.Moment)
      ensures this.rootfs == rootfs && this.disk == disk && this.store == store && moments == []
    {
      this.rootfs, this.disk, this.store, moments := rootfs, disk, store, [];
    }

    /** The meaning has been the same at every kill point and is the same now. */
    ghost predicate Kept(start: Disk)
      reads this
    {
      rootfs.Valid() && Sound(rootfs, start) && Sound(rootfs, disk) && InstantOk(rootfs, start, Instant(disk, store))
      && forall m | m in moments :: InstantOk(rootfs, start, m)
    }

    ghost predicate Working(start: Disk)
      reads this
    {
      Kept(start) && Opening(store)
    }

    method KillPoint(ghost start: Disk)
      requires Kept(start)
      modifies this`moments
      ensures Kept(start) && moments == old(moments) + [Instant(disk, store)]
    {
      moments := moments + [Instant(disk, store)];
    }

    /** A durable Set of what a file is meant to be: it may fail, or be killed at any of the store's kill points. */
    method Record(key: Key, ghost start: Disk) returns (ok: bool)
      requires Working(start) && key in MetKeys(rootfs, disk) && key in disk.host && key in rootfs.births
      requires |store.history| < 0x1_0000_0000_0000_0000
      modifies this`disk, this`store, this`moments
      ensures Kept(start) && SameMeaning(rootfs, old(disk), disk) && disk.host == old(disk).host
      ensures |store.history| <= |old(store).history| + 1
      ensures ok ==> Opening(store) && Tracked(disk, key, rootfs.births[key])
    {
      hide SameMeaning, BirthsFrom, R.Step, R.CrashOk, R.Clean, Sound, Tracked, Current, Met, MetKeys;
      var owner := Current(disk, key, rootfs.births[key]);
      MetKnown(rootfs, disk, key);
      CurrentHasInode(rootfs, disk, key);
      var process := new S.OwnershipStore.At(store);
      ok := process.Set(owner, true, None);
      ghost var now := Instant(disk, store);
      var killed := process.moments[1..];
      RecordMoments(rootfs, start, now, key, killed);
      RecordStep(rootfs, start, now, key, R.Returned(owner, true, ok), process.Now());
      moments := moments + Instants(disk.host, killed);
      store := process.Now();
      disk := disk.(recorded := R.Last(store.history));
    }

    /** chmod of a file whose record is already recoverable. */
    method Widen(key: Key, bits: Mode, ghost start: Disk) returns (ok: bool)
      requires Kept(start) && key in MetKeys(rootfs, disk) && key in disk.host && key in rootfs.births
      requires Tracked(disk, key, rootfs.births[key]) && bits == Meant(disk, key, rootfs.births[key]).mode
      requires key in start.host && Lacks(start.host[key])
      modifies this`disk, this`moments
      ensures Kept(start) && SameMeaning(rootfs, old(disk), disk) && disk.recorded == old(disk).recorded
      ensures ok ==> key in disk.host && Fit(bits, disk.host[key])
    {
      hide SameMeaning, Sound, Met, MetKeys, BirthsFrom, R.CrashOk, Meant, Tracked, HostsKept, Widened, Lacks;
      ok := *;
      if !ok { SameMeaningHere(rootfs, disk); return; }
      WidenKeeps(rootfs, disk, key, bits);
      MeantSince(rootfs, start, disk, key);
      OneMoreWidened(rootfs, start, disk.host, key);
      ghost var after := disk.(host := disk.host[key := Widened(disk.host[key], bits)]);
      SameMeaningTransitive(rootfs, start, disk, after);
      MeaningIsSound(rootfs, disk, after);
      SameBirths(rootfs, start, disk, after);
      disk := disk.(host := disk.host[key := Widened(disk.host[key], bits)]);
      KillPoint(start);
    }

    /**
      One turn of the walk: identify the file, take over what is recorded of it, and make a directory
      accessible, but only after its mode is recoverable.
     */
    method Visit(path: Path, ghost start: Disk) returns (ok: bool, f: LiveFile)
      requires Working(start) && Met(rootfs, disk, path) && |store.history| < 0x1_0000_0000_0000_0000
      modifies this`disk, this`store, this`moments
      ensures Kept(start) && SameMeaning(rootfs, old(disk), disk) && |store.history| <= |old(store).history| + 1
      ensures ok ==> Working(start) && f.path == path && Seen(rootfs, disk, f)
      ensures ok ==> BornOk(rootfs, start, f.owner.Id(), f.owner) && Wanting(start, f)
    {
      MetKey(rootfs, disk, path);
      hide R.CrashOk, R.Clean, BornOk, BirthsFrom, SameMeaning, Sound, Met, MetKeys, Fit, HostsKept,
           Kind;
      BornNow(rootfs, start, disk, path);
      var key, birth := rootfs.files[path], rootfs.births[rootfs.files[path]];
      SameMeaningHere(rootfs, disk);
      var host := disk.host[key];
      var widen := !IsLink(host) && !Accessible(host);
      MeantSince(rootfs, start, disk, key);
      LackedBefore(rootfs, start, disk.host, key);
      var current := Current(disk, key, birth);
      f := LiveFile(path, current, widen);
      CurrentFaithful(rootfs, disk, key);
      ghost var before := disk;
      if IsDirectory(current.mode) && widen {
        ok := Record(key, start);
        if !ok { return; }
        StaysFaithful(rootfs, before, disk, path, current);
        ghost var recorded := disk;
        ok := Widen(key, current.mode, start);
        SameMeaningTransitive(rootfs, before, recorded, disk);
        StaysFaithful(rootfs, before, disk, path, current);
        f := f.(widen := false);
      } else {
        ok := *;
        FitWhenAccessible(current.mode, host);
      }
    }

    /** opendir and readdir, in any order; they fail on what is no directory. */
    method List(path: Path) returns (ok: bool, children: seq<Path>)
      requires path in rootfs.files && rootfs.files[path] in disk.host
      ensures ok ==> IsDirectory(disk.host[rootfs.files[path]]) && Distinct(children)
      ensures ok ==> forall p :: p in children <==> p in rootfs.files && p != [] && Parent(p) == path
    {
      children := [];
      if !IsDirectory(disk.host[rootfs.files[path]]) { return false, []; }
      ghost var all := set p | p in rootfs.files && p != [] && Parent(p) == path;
      var todo := set p | p in rootfs.files && p != [] && Parent(p) == path;
      while todo != {}
        invariant Distinct(children)
        invariant forall p :: p in children <==> p in all && p !in todo
        invariant todo <= all
        decreases todo
      {
        ok := *;
        if !ok { return; }
        var child :| child in todo;
        children, todo := children + [child], todo - {child};
      }
      ok := true;
    }

    /** Visits a path and lists what is below it. */
    method Enter(path: Path, ghost start: Disk) returns (ok: bool, f: LiveFile, children: seq<Path>)
      requires Working(start) && Met(rootfs, disk, path) && |store.history| < 0x1_0000_0000_0000_0000
      modifies this`disk, this`store, this`moments
      ensures Kept(start) && SameMeaning(rootfs, old(disk), disk) && |store.history| <= |old(store).history| + 1
      ensures ok ==> Working(start) && f.path == path && LiveOk(rootfs, disk, f)
      ensures ok ==> BornOk(rootfs, start, f.owner.Id(), f.owner) && Wanting(start, f)
      ensures ok ==> Distinct(children)
      ensures ok ==> forall p :: p in children <==> p in rootfs.files && p != [] && Parent(p) == path
                                                    && Opens(rootfs, start, path)
    {
      hide Met, MetKeys, SameMeaning, Sound, InstantOk, Opening, BornOk, Meant, Matches, Fit;
      children := [];
      ok, f := Visit(path, start);
      if !ok { return; }
      OpensAsSeen(rootfs, start, Instant(disk, store), f);
      if IsDirectory(f.owner.mode) {
        ok, children := List(path);
      }
    }

    /** The files met so far are known, and every path is met, waiting, or below one that is. */
    ghost predicate Walked(start: Disk, visited: set<Path>, pending: seq<Path>, live: seq<LiveFile>)
      reads this
    {
      && Working(start) && visited <= rootfs.files.Keys && Frontier(rootfs, start, visited, pending)
      && AllLive(rootfs, disk, live) && LiveBorn(rootfs, start, live) && AllWanting(start, live) && Covers(visited, live)
    }

    /** One turn of the walk: the last path that waits is met, and those below it wait. */
    method Turn(pending: seq<Path>, live: seq<LiveFile>, ghost start: Disk, ghost visited: set<Path>)
      returns (ok: bool, next: seq<Path>, found: seq<LiveFile>)
      requires pending != [] && Walked(start, visited, pending, live)
      requires |store.history| + |rootfs.files| <= 0x1_0000_0000_0000_0000 + |visited|
      modifies this`disk, this`store, this`moments
      ensures Kept(start) && |store.history| <= |old(store).history| + 1
      ensures var path := pending[|pending| - 1];
              && path in rootfs.files && path !in visited && |visited + {path}| == |visited| + 1 <= |rootfs.files|
              && (ok ==> Walked(start, visited + {path}, next, found))
    {
      hide LiveOk, AllLive, Covers, SameMeaning, Sound, Frontier, InstantOk, Opening, LiveBorn, BornOk, Distinct, Met, Opens;
      next, found := pending, live;
      var path, rest := pending[|pending| - 1], pending[..|pending| - 1];
      assert pending == rest + [path] && path in pending;
      FrontierWaits(rootfs, start, visited, pending, path);
      MetNow(rootfs, start, Instant(disk, store), path);
      OneMoreVisited(rootfs, visited, path);
      ghost var before := disk;
      var f, children;
      ok, f, children := Enter(path, start);
      if !ok { return; }
      AllLiveKept(rootfs, before, disk, live);
      OneMoreLive(rootfs, start, disk, live, visited, f);
      FrontierAdvances(rootfs, start, visited, rest, path, children);
      next, found := rest + children, live + [f];
    }

    /** The walk over the rootfs. */
    method Walk(ghost start: Disk) returns (ok: bool, live: seq<LiveFile>)
      requires Working(start) && |store.history| + |rootfs.files| <= 0x1_0000_0000_0000_0000
      modifies this`disk, this`store, this`moments
      ensures Kept(start) && |store.history| <= |old(store).history| + |rootfs.files|
      ensures ok ==> Working(start) && AllLive(rootfs, disk, live) && LiveBorn(rootfs, start, live)
                     && Complete(rootfs, disk, live) && AllWanting(start, live)
    {
      hide LiveOk, AllLive, Covers, SameMeaning, Sound, Frontier, InstantOk, Opening, LiveBorn, BornOk, Met, Complete;
      NoneLive(rootfs, start, disk);
      FrontierStarts(rootfs, start);
      var pending: seq<Path>;
      pending, live := [[]], [];
      ghost var visited: set<Path> := {};
      while pending != []
        invariant Walked(start, visited, pending, live)
        invariant |store.history| <= |old(store).history| + |visited|
        decreases rootfs.files.Keys - visited
      {
        ghost var path := pending[|pending| - 1];
        ok, pending, live := Turn(pending, live, start, visited);
        if !ok { return; }
        visited := visited + {path};
      }
      ok := true;
      SubsetSize(visited, rootfs.files.Keys);
      AllCovered(rootfs, start, Instant(disk, store), visited, live);
    }

    /** The whole scan: walk, replace the records in one rename, then widen the remaining files. */
    method Scan(ghost start: Disk) returns (ok: bool)
      requires Working(start) && |store.history| + |rootfs.files| <= 0x1_0000_0000_0000_0000
      modifies this
      ensures Kept(start) && |store.history| <= |old(store).history| + |rootfs.files|
      ensures ok ==> Imported(rootfs, disk) && Opening(store)
    {
      hide AllLive, LiveOk, SameMeaning, Sound, Tracked, InstantOk, Opening, LiveBorn, Complete, MetKeys, Met;
      var live;
      ok, live := Walk(start);
      if !ok { return; }
      ok := Replace(live, start);
      if !ok { return; }
      ok := WidenAll(live, start);
    }

    /** The table is filled anew, and the checkpoint's rename replaces all records at once. */
    method Replace(live: seq<LiveFile>, ghost start: Disk) returns (ok: bool)
      requires Working(start) && AllLive(rootfs, disk, live) && LiveBorn(rootfs, start, live)
      requires Complete(rootfs, disk, live)
      modifies this`disk, this`store, this`moments
      ensures Kept(start) && |store.history| <= |old(store).history|
      ensures ok ==> Opening(store) && Ready(live)
    {
      hide AllLive, LiveOk, LiveBorn, BirthsFrom, Tracked, SameMeaning, R.Step, R.CrashOk, R.Clean, Sound, Met, MetKeys;
      hide Complete;
      var owners := OwnersOf(live);
      var process := new S.OwnershipStore.At(store);
      ok := process.Rewrite(owners);
      ghost var now := Instant(disk, store);
      var killed := process.moments[1..];
      ReplaceMoments(rootfs, start, now, live, killed);
      store := process.Now();
      ReplaceStep(rootfs, start, now, live, ok, store);
      ghost var was := disk;
      moments := moments + Instants(disk.host, killed);
      disk := disk.(recorded := R.Last(store.history));
      CompleteKept(rootfs, was, disk, live);
    }

    /** All files of the walk are on record, and only they. */
    ghost predicate Ready(live: seq<LiveFile>)
      reads this
    {
      && AllLive(rootfs, disk, live) && Complete(rootfs, disk, live) && disk.recorded.Keys == MetKeys(rootfs, disk)
      && forall key | key in MetKeys(rootfs, disk) :: key in rootfs.births && Tracked(disk, key, rootfs.births[key])
    }

    method WidenAll(live: seq<LiveFile>, ghost start: Disk) returns (ok: bool)
      requires Kept(start) && Ready(live) && AllWanting(start, live)
      modifies this`disk, this`moments
      ensures Kept(start) && disk.recorded == old(disk).recorded
      ensures ok ==> Imported(rootfs, disk)
    {
      hide AllLive, LiveOk, SameMeaning, Sound, Wide, WideUpTo, Imported, InstantOk, Met, MetKeys, Complete, Meant, Tracked;
      WideNone(disk, live);
      for i := 0 to |live|
        invariant Kept(start) && Ready(live) && disk.recorded == old(disk).recorded
        invariant WideUpTo(disk, live, i)
      {
        ok := true;
        ghost var before := disk;
        if live[i].widen {
          LiveKey(rootfs, disk, live, i);
          assert Wanting(start, live[i]) by { assert live[i] in live; }
          ok := Widen(live[i].owner.Id(), live[i].owner.mode, start);
          if !ok { return; }
          StillReady(rootfs, before, disk, live);
          WideKept(rootfs, before, disk, live, i);
        }
        WideMore(disk, live, i);
      }
      ImportDone(rootfs, disk, live);
      ok := true;
    }
  }

  lemma CompleteKept(r: Rootfs, d: Disk, after: Disk, live: seq<LiveFile>)
    requires Sound(r, d) && SameMeaning(r, d, after) && Complete(r, d, live)
    ensures Complete(r, after, live) && MetKeys(r, d) == MetKeys(r, after)
  {
    MetKeysSame(r, d, after);
    hide Met, SameMeaning, Sound;
    forall p ensures Met(r, d, p) <==> Met(r, after, p) {
      MetSame(r, d, after, p);
    }
  }

  lemma StillReady(r: Rootfs, d: Disk, after: Disk, live: seq<LiveFile>)
    requires Sound(r, d) && SameMeaning(r, d, after) && after.recorded == d.recorded
    requires AllLive(r, d, live) && Complete(r, d, live) && d.recorded.Keys == MetKeys(r, d)
    requires forall key | key in MetKeys(r, d) :: key in r.births && Tracked(d, key, r.births[key])
    ensures AllLive(r, after, live) && Complete(r, after, live) && after.recorded.Keys == MetKeys(r, after)
    ensures forall key | key in MetKeys(r, after) :: key in r.births && Tracked(after, key, r.births[key])
  {
    AllLiveKept(r, d, after, live);
    CompleteKept(r, d, after, live);
  }

  /** A disk that means the same has the same birth times on record, as long as the records are the same. */
  lemma SameBirths(r: Rootfs, start: Disk, d: Disk, after: Disk)
    requires BirthsFrom(r, start, d) && after.recorded == d.recorded
    ensures BirthsFrom(r, start, after)
  {
  }

  lemma CurrentFaithful(r: Rootfs, d: Disk, key: Key)
    requires Sound(r, d) && key in MetKeys(r, d)
    ensures key in r.births && key in d.host && Faithful(r, d, Current(d, key, r.births[key]))
  {
    MetKnown(r, d, key);
  }

  lemma StaysFaithful(r: Rootfs, d: Disk, after: Disk, path: Path, o: FileOwner)
    requires Sound(r, d) && SameMeaning(r, d, after) && Met(r, d, path) && r.files[path] == o.Id() && Faithful(r, d, o)
    ensures Met(r, after, path) && Faithful(r, after, o) && Kind(after.host[o.Id()]) == Kind(d.host[o.Id()])
    ensures o.mode == Meant(after, o.Id(), r.births[o.Id()]).mode
  {
    MetSame(r, d, after, path);
    MetKeysSame(r, d, after);
    hide Met, MetKeys, Fit, Sound;
  }

  lemma FitWhenAccessible(kind: Mode, host: Mode)
    ensures Accessible(host) && (IsDirectory(host) || !IsDirectory(kind)) ==> Fit(kind, host)
  {
    if Accessible(host) && IsDirectory(host) { FitAsFile(kind, host); }
  }

  /** What the scan takes for a directory now, it took for one at the start. */
  lemma OpensAsSeen(r: Rootfs, start: Disk, i: Instant, f: LiveFile)
    requires Sound(r, start) && InstantOk(r, start, i) && Seen(r, i.disk, f)
    ensures Opens(r, start, f.path) <==> IsDirectory(f.owner.mode)
  {
    MetSame(r, start, i.disk, f.path);
    MetKey(r, start, f.path);
    hide Met, MetKeys, Tracked, Fit, Kind, IsDirectory;
  }

  lemma MetNow(r: Rootfs, start: Disk, i: Instant, path: Path)
    requires Sound(r, start) && InstantOk(r, start, i)
    ensures Met(r, i.disk, path) <==> Met(r, start, path)
  {
    MetSame(r, start, i.disk, path);
  }

  lemma BornNow(r: Rootfs, start: Disk, d: Disk, path: Path)
    requires r.Valid() && Sound(r, d) && path in r.files && BirthsFrom(r, start, d)
    ensures r.files[path] in r.Keys() && r.files[path] in d.host
    ensures var o := Current(d, r.files[path], r.births[r.files[path]]); BornOk(r, start, o.Id(), o)
  {
    assert r.files[path] in r.Keys();
    CurrentBorn(r, start, d, r.files[path]);
  }

  lemma NoneLive(r: Rootfs, start: Disk, d: Disk)
    ensures AllLive(r, d, []) && LiveBorn(r, start, []) && Covers({}, [])
  {
  }

  lemma OneMoreLive(r: Rootfs, start: Disk, d: Disk, live: seq<LiveFile>, visited: set<Path>, f: LiveFile)
    requires AllLive(r, d, live) && Covers(visited, live) && LiveOk(r, d, f)
    requires LiveBorn(r, start, live) && BornOk(r, start, f.owner.Id(), f.owner)
    ensures AllLive(r, d, live + [f]) && LiveBorn(r, start, live + [f]) && Covers(visited + {f.path}, live + [f])
  {
    hide LiveOk, BornOk;
    var all := live + [f];
    forall p | p in visited + {f.path} ensures exists g | g in all :: g.path == p {
      if p == f.path {
        assert all[|live|] == f;
      } else {
        var g :| g in live && g.path == p;
        assert g in all;
      }
    }
  }

  lemma AllCovered(r: Rootfs, start: Disk, i: Instant, visited: set<Path>, live: seq<LiveFile>)
    requires Sound(r, start) && InstantOk(r, start, i) && AllLive(r, i.disk, live)
    requires Frontier(r, start, visited, []) && Covers(visited, live)
    ensures Complete(r, i.disk, live)
  {
    hide Met, SameMeaning, Sound, Faithful;
    forall p ensures Met(r, i.disk, p) <==> exists f | f in live :: f.path == p {
      FrontierExhausted(r, start, visited, p);
      MetNow(r, start, i, p);
      if f :| f in live && f.path == p { assert LiveOk(r, i.disk, f); }
    }
  }

  lemma OneMoreVisited(r: Rootfs, visited: set<Path>, path: Path)
    requires visited <= r.files.Keys && path in r.files && path !in visited
    ensures |visited| < |r.files| && |visited + {path}| == |visited| + 1
  {
    SubsetSize(visited + {path}, r.files.Keys);
  }

  lemma CurrentHasInode(r: Rootfs, d: Disk, key: Key)
    requires r.Valid() && key in r.Keys() && key in d.host
    ensures Current(d, key, r.births[key]).inode != 0 && Current(d, key, r.births[key]).Id() == key
  {
  }

  lemma WideNone(d: Disk, live: seq<LiveFile>)
    ensures WideUpTo(d, live, 0)
  {
  }

  lemma WideMore(d: Disk, live: seq<LiveFile>, i: nat)
    requires i < |live| && WideUpTo(d, live, i)
    requires live[i].widen ==> live[i].owner.Id() in d.host && Fit(live[i].owner.mode, d.host[live[i].owner.Id()])
    ensures WideUpTo(d, live, i + 1)
  {
  }

  lemma LiveKey(r: Rootfs, d: Disk, live: seq<LiveFile>, i: nat)
    requires AllLive(r, d, live) && i < |live|
    ensures var o := live[i].owner;
            && o.Id() in MetKeys(r, d) && o.Id() in d.host && o.Id() in r.births
            && o.mode == Meant(d, o.Id(), r.births[o.Id()]).mode
  {
    assert LiveOk(r, d, live[i]);
  }
}
