/**
  Startups: a first opener recovers the store, scans the rootfs and lets the others in. It may be killed
  anywhere, and the birth times that the host reports may be missing in one startup and known in the next.
 */
module Startups {
  import opened Types
  import opened FileTable
  import opened Import
  import D = Disks
  import R = Runs
  import S = Store

  /** The same files, with some of the birth times not reported. */
  ghost predicate Sees(r: Rootfs, truth: Rootfs) {
    && r.files == truth.files && r.births.Keys == truth.births.Keys
    && forall key | key in truth.births :: r.births[key] == truth.births[key] || !Known(r.births[key])
  }

  /** No record is one of an earlier file with the same inode number. */
  ghost predicate Settled(truth: Rootfs, d: Disk)
    requires truth.Valid()
  {
    forall key | key in truth.Keys() && key in d.recorded :: Matches(d.recorded[key], truth.births[key])
  }

  lemma SeenAlike(r: Rootfs, truth: Rootfs, d: Disk)
    requires truth.Valid() && Sees(r, truth) && Settled(truth, d)
    ensures r.Valid() && r.Keys() == truth.Keys() && (Sound(r, d) <==> Sound(truth, d))
    ensures forall key | key in truth.Keys() && key in d.host ::
              && key in r.births && key in truth.births
              && Meant(d, key, r.births[key]) == Meant(d, key, truth.births[key])
              && (Tracked(d, key, r.births[key]) <==> Tracked(d, key, truth.births[key]))
  {
    assert r.Valid() && r.Keys() == truth.Keys();
  }

  lemma {:induction false} MetAlike(r: Rootfs, truth: Rootfs, d: Disk, p: Path)
    requires Sound(truth, d) && Sees(r, truth) && Settled(truth, d)
    ensures Met(r, d, p) <==> Met(truth, d, p)
    decreases |p|
  {
    hide Meant, Settled, Tracked;
    if p in r.files && p != [] {
      MetAlike(r, truth, d, Parent(p));
      SeenAlike(r, truth, d);
      assert Parent(p) in truth.files ==> truth.files[Parent(p)] in truth.Keys();
    }
  }

  lemma MetKeysAlike(r: Rootfs, truth: Rootfs, d: Disk)
    requires Sound(truth, d) && Sees(r, truth) && Settled(truth, d)
    ensures MetKeys(r, d) == MetKeys(truth, d)
  {
    hide Met, Sound, Settled;
    forall p | p in r.files ensures Met(r, d, p) <==> Met(truth, d, p) {
      MetAlike(r, truth, d, p);
    }
  }

  lemma StaysSettled(r: Rootfs, truth: Rootfs, start: Disk, d: Disk)
    requires truth.Valid() && Sees(r, truth) && Settled(truth, start) && BirthsFrom(r, start, d)
    ensures Settled(truth, d)
  {
    assert r.Keys() == truth.Keys();
  }

  lemma SameMeaningSeen(r: Rootfs, truth: Rootfs, start: Disk, d: Disk)
    requires Sound(truth, start) && Sees(r, truth) && Settled(truth, start) && Sound(r, start) && Startup(r, start, d)
    ensures SameMeaning(truth, start, d) && Settled(truth, d)
  {
    hide Matches, Meant, BornOk, Tracked, Sound, BirthsFrom, Settled, MetKeys, Fit, Kind;
    ValidOf(truth, start);
    StaysSettled(r, truth, start, d);
    SeenAlike(r, truth, start);
    SeenAlike(r, truth, d);
    MetKeysAlike(r, truth, start);
    forall key | key in MetKeys(truth, start) ensures key in truth.births && FileSame(start, d, key, truth.births[key]) {
      MetKnown(truth, start, key);
      MetKnown(r, start, key);
      assert FileSame(start, d, key, r.births[key]);
    }
  }

  lemma ValidOf(r: Rootfs, d: Disk)
    requires Sound(r, d)
    ensures r.Valid()
  {
  }

  lemma HostsOf(r: Rootfs, d: Disk)
    requires Sound(r, d)
    ensures forall key | key in r.Keys() :: key in d.host
  {
  }

  /** With an older file's record, a missing birth time matters exactly if that record says something else. */
  lemma UnreportedBirth(d: Disk, key: Key, birth: Birth)
    requires key in d.host && Known(birth)
    ensures Meant(d, key, Birth(0, 0)) == Meant(d, key, birth) <==>
              (key in d.recorded && !Matches(d.recorded[key], birth) ==>
                 AttributesOf(d.recorded[key]) == Attributes(0, 0, d.host[key]))
  {
  }

  /** Each startup, killed or completed, keeps what it saw to be meant. */
  ghost predicate Chain(truth: Rootfs, seen: seq<Rootfs>, disks: seq<Disk>) {
    && |disks| == |seen| + 1
    && forall i | 0 <= i < |seen| ::
         Sees(seen[i], truth) && Sound(seen[i], disks[i]) && Startup(seen[i], disks[i], disks[i + 1])
  }

  /** Birth times are reported alike in all startups, or no record is an earlier file's. */
  ghost predicate Steady(truth: Rootfs, seen: seq<Rootfs>, d: Disk)
    requires truth.Valid()
  {
    Settled(truth, d) || forall i | 0 <= i < |seen| :: seen[i] == truth
  }

  /**
    Any number of startups, each killed or failed at some point, leave every file meant to be what it
    was meant to be at first.
   */
  lemma {:induction false} ManyStartups(truth: Rootfs, seen: seq<Rootfs>, disks: seq<Disk>)
    requires Chain(truth, seen, disks) && Sound(truth, disks[0]) && Steady(truth, seen, disks[0])
    ensures SameMeaning(truth, disks[0], disks[|seen|])
    ensures Settled(truth, disks[0]) ==> Settled(truth, disks[|seen|])
  {
    hide Sound, Settled, Startup, SameMeaning, Sees;
    ValidOf(truth, disks[0]);
    if seen == [] {
      SameMeaningHere(truth, disks[0]);
    } else {
      var n := |seen| - 1;
      ChainShorter(truth, seen, disks);
      ManyStartups(truth, seen[..n], disks[..n + 1]);
      MeaningIsSound(truth, disks[0], disks[n]);
      OneStartup(seen[n], truth, disks[n], disks[n + 1]);
      SameMeaningTransitive(truth, disks[0], disks[n], disks[n + 1]);
    }
  }

  lemma ChainShorter(truth: Rootfs, seen: seq<Rootfs>, disks: seq<Disk>)
    requires Chain(truth, seen, disks) && seen != [] && truth.Valid() && Steady(truth, seen, disks[0])
    ensures var n := |seen| - 1; Chain(truth, seen[..n], disks[..n + 1]) && Steady(truth, seen[..n], disks[0])
  {
    hide Sound, Settled, Startup, Sees;
  }

  lemma OneStartup(r: Rootfs, truth: Rootfs, start: Disk, d: Disk)
    requires Sound(truth, start) && Sees(r, truth) && Sound(r, start) && Startup(r, start, d)
    requires r == truth || Settled(truth, start)
    ensures SameMeaning(truth, start, d)
    ensures Settled(truth, start) ==> Settled(truth, d)
  {
    hide Sound, Settled, SameMeaning, Sees, BirthsFrom;
    ValidOf(truth, start);
    if Settled(truth, start) { SameMeaningSeen(r, truth, start, d); }
  }

  /**
    The startup that completes records, for every file it meets and no other, what was meant at first. These are all files
    if each directory that contains some was taken for one at first; see AllMet.
   */
  lemma CompletedStartup(truth: Rootfs, seen: seq<Rootfs>, disks: seq<Disk>)
    requires Chain(truth, seen, disks) && Sound(truth, disks[0]) && Steady(truth, seen, disks[0])
    requires seen != [] && Imported(seen[|seen| - 1], disks[|seen|])
    ensures var end := disks[|seen|];
            && end.recorded.Keys == MetKeys(truth, disks[0])
            && ((forall p | p in truth.files && p != [] :: Opens(truth, disks[0], Parent(p))) ==>
                  end.recorded.Keys == truth.Keys())
            && forall key | key in MetKeys(truth, disks[0]) ::
                 && key in disks[0].host && key in truth.births
                 && AttributesOf(end.recorded[key]) == Meant(disks[0], key, truth.births[key])
                 && (key !in disks[0].recorded ==> end.recorded[key].mode == disks[0].host[key])
  {
    hide Met, MetKeys, Fit, Kind, Settled, Sound, BirthsFrom, Matches;
    ManyStartups(truth, seen, disks);
    var r, end := seen[|seen| - 1], disks[|seen|];
    assert Sees(r, truth);
    AllMet(truth, disks[0]);
    MeaningIsSound(truth, disks[0], end);
    MetKeysSame(truth, disks[0], end);
    ValidOf(truth, disks[0]);
    if r != truth {
      SeenAlike(r, truth, end);
      MetKeysAlike(r, truth, end);
    }
    forall key | key in MetKeys(truth, disks[0])
      ensures key in disks[0].host && key in truth.births && key in end.recorded
      ensures AttributesOf(end.recorded[key]) == Meant(disks[0], key, truth.births[key])
    {
      MetKnown(truth, disks[0], key);
      MetKnown(truth, end, key);
      assert FileSame(disks[0], end, key, truth.births[key]) && FileImported(end, key, r.births[key]);
    }
  }

  /**
    An earlier file's record, and a startup that is not told the birth time: it widens the directory for the mode on
    record, and the mode that the directory itself had is gone.
   */
  lemma StaleRecordTaken() returns (truth: Rootfs, r: Rootfs, before: Disk, after: Disk)
    ensures Chain(truth, [r], [before, after]) && Sound(truth, before) && Imported(r, after)
    ensures !SameMeaning(truth, before, after)
  {
    var key, birth := Key(1, 2), Birth(5, 0);
    var stale := FileOwner(1, 2, 4, 0, 1000, 1000, 0x41ED);
    truth := Rootfs(map[[] := key], map[key := birth]);
    r := Rootfs(map[[] := key], map[key := Birth(0, 0)]);
    before, after := Disk(map[key := 0x416D], map[key := stale]), Disk(map[key := 0x41ED], map[key := stale]);
    assert truth.files[[]] == key && truth.Keys() == {key} && r.Keys() == {key};
    OnlyRoot(truth, before, key);
    OnlyRoot(r, before, key);
    OnlyRoot(r, after, key);
    assert IsDirectory(0x416D) && IsDirectory(0x41ED) && Accessible(0x41ED) && IsDirectory(stale.mode);
    StaleMeanings(before, after, key, birth);
    assert Startup(r, before, after);
    assert !FileSame(before, after, key, birth);
  }

  lemma OnlyRoot(r: Rootfs, d: Disk, key: Key)
    requires r.files == map[[] := key] && key in r.births && key in d.host && key.inode != 0
    ensures Sound(r, d) && MetKeys(r, d) == {key}
  {
    assert r.Valid() && r.Keys() == {key} && Met(r, d, []);
  }

  lemma StaleMeanings(before: Disk, after: Disk, key: Key, birth: Birth)
    requires birth == Birth(5, 0) && before.recorded == after.recorded
    requires before.recorded == map[key := FileOwner(1, 2, 4, 0, 1000, 1000, 0x41ED)]
    requires before.host == map[key := 0x416D] && after.host == map[key := 0x41ED]
    ensures Meant(before, key, birth) == Attributes(0, 0, 0x416D)
    ensures Meant(after, key, birth) == Attributes(0, 0, 0x41ED)
    ensures Meant(before, key, Birth(0, 0)) == Meant(after, key, Birth(0, 0)) == Attributes(1000, 1000, 0x41ED)
  {
  }

  /**
    A startup that completes records what was meant before it, by the true birth times, if and only if it meets every
    file, and each file whose birth time it was not told, and that an earlier file's record is there for, was to have
    what that record says.
   */
  lemma MissingBirthsExactly(truth: Rootfs, r: Rootfs, before: Disk, after: Disk)
    requires Sound(truth, before) && Sees(r, truth) && Sound(r, before)
    requires Startup(r, before, after) && Imported(r, after)
    ensures after.recorded.Keys == MetKeys(r, before)
    ensures (forall key | key in truth.Keys() ::
               key in after.recorded && AttributesOf(after.recorded[key]) == Meant(before, key, truth.births[key]))
       <==> (MetKeys(r, before) == truth.Keys()
             && forall key | key in truth.Keys() && !Known(r.births[key])
                             && key in before.recorded && !Matches(before.recorded[key], truth.births[key]) ::
                  AttributesOf(before.recorded[key]) == Attributes(0, 0, before.host[key]))
  {
    assert r.Keys() == truth.Keys();
    MetKeysSame(r, before, after);
    forall key | key in MetKeys(r, before)
      ensures key in truth.Keys() && key in after.recorded
      ensures AttributesOf(after.recorded[key]) == Meant(before, key, truth.births[key]) <==>
                (!Known(r.births[key]) && key in before.recorded && !Matches(before.recorded[key], truth.births[key]) ==>
                   AttributesOf(before.recorded[key]) == Attributes(0, 0, before.host[key]))
    {
      MetKnown(r, before, key);
      MissingBirth(truth, r, before, after, key);
    }
    hide Meant, Matches, Met, MetKeys, Fit, Sound, SameMeaning, Imported;
  }

  lemma MissingBirth(truth: Rootfs, r: Rootfs, before: Disk, after: Disk, key: Key)
    requires Sound(truth, before) && Sees(r, truth) && Sound(r, before) && key in truth.Keys() && key in MetKeys(r, before)
    requires Startup(r, before, after) && Imported(r, after)
    ensures key in after.recorded && key in before.host && key in truth.births && key in r.births
    ensures AttributesOf(after.recorded[key]) == Meant(before, key, truth.births[key]) <==>
              (!Known(r.births[key]) && key in before.recorded && !Matches(before.recorded[key], truth.births[key]) ==>
                 AttributesOf(before.recorded[key]) == Attributes(0, 0, before.host[key]))
  {
    MetKeysSame(r, before, after);
    hide Met, MetKeys, Fit, Kind;
    MetKnown(r, before, key);
    assert FileSame(before, after, key, r.births[key]) && FileImported(after, key, r.births[key]);
    assert AttributesOf(after.recorded[key]) == Meant(before, key, r.births[key]);
  }

  // ----- Records of another kind than their files

  /**
    A startup that completes leaves every file meaning what it meant if and only if each file that it does not meet was
    root's, with its mode on the host: what else is on record of such a file is dropped.
   */
  lemma MeaningKeptExactly(r: Rootfs, before: Disk, after: Disk)
    requires Sound(r, before) && Startup(r, before, after) && Imported(r, after)
    ensures forall key | key in r.Keys() :: key in before.host && key in after.host && key in r.births
    ensures (forall key | key in r.Keys() :: Meant(after, key, r.births[key]) == Meant(before, key, r.births[key]))
       <==> (forall key | key in r.Keys() && key !in MetKeys(r, before) ::
               Meant(before, key, r.births[key]) == Attributes(0, 0, before.host[key]))
  {
    MetKeysSame(r, before, after);
    forall key | key in r.Keys()
      ensures key in before.host && key in after.host && key in r.births
      ensures Meant(after, key, r.births[key]) ==
                if key in MetKeys(r, before) then Meant(before, key, r.births[key]) else Attributes(0, 0, before.host[key])
    {
      if key in MetKeys(r, before) {
        assert FileSame(before, after, key, r.births[key]);
      } else {
        assert FileLeft(before, after, key);
      }
    }
    hide Meant, Met, MetKeys, Sound, SameMeaning, Imported;
  }

  /** No startup completes that meets something which is on record as a directory and is none. */
  lemma NeverCompletes(r: Rootfs, before: Disk, after: Disk, p: Path)
    requires Sound(r, before) && Startup(r, before, after)
    requires Met(r, before, p) && Opens(r, before, p) && !IsDirectory(before.host[r.files[p]])
    ensures !Imported(r, after)
  {
    MetKeysSame(r, before, after);
    MetKey(r, before, p);
    hide Met, MetKeys, Fit, Tracked;
    assert FileSame(before, after, r.files[p], r.births[r.files[p]]);
    assert r.files[p] in MetKeys(r, after);
  }

  /** What a startup that completes leaves of a host mode. */
  ghost function HostAfter(r: Rootfs, d: Disk, key: Key): Mode
    requires Sound(r, d) && key in d.host
  {
    if key !in MetKeys(r, d) then d.host[key]
    else
      MetKnown(r, d, key);
      var meant := Meant(d, key, r.births[key]).mode;
      if IsLink(d.host[key]) || Fit(meant, d.host[key]) then d.host[key] else Widened(d.host[key], meant)
  }

  ghost function RecordAfter(r: Rootfs, d: Disk, key: Key): FileOwner
    requires Sound(r, d) && key in MetKeys(r, d)
  {
    MetKnown(r, d, key);
    Current(d, key, r.births[key])
  }

  ghost function After(r: Rootfs, d: Disk): Disk
    requires Sound(r, d)
  {
    Disk(map key | key in d.host :: HostAfter(r, d, key), map key | key in MetKeys(r, d) :: RecordAfter(r, d, key))
  }

  lemma AfterKeeps(r: Rootfs, d: Disk, key: Key)
    requires Sound(r, d) && key in MetKeys(r, d)
    ensures key in r.births && FileSame(d, After(r, d), key, r.births[key])
    ensures BornOk(r, d, key, After(r, d).recorded[key])
    ensures AttributesOf(After(r, d).recorded[key]) == Meant(After(r, d), key, r.births[key])
    ensures IsLink(After(r, d).host[key]) || Fit(Meant(d, key, r.births[key]).mode, After(r, d).host[key])
  {
    hide MetKeys, Fit, Widened, IsLink, Kind;
    MetKnown(r, d, key);
  }

  lemma AfterLeaves(r: Rootfs, d: Disk, key: Key)
    requires Sound(r, d) && key in d.host && key !in MetKeys(r, d)
    ensures FileLeft(d, After(r, d), key)
  {
    hide MetKeys;
  }

  lemma AfterIsSound(r: Rootfs, d: Disk)
    requires Sound(r, d)
    ensures Sound(r, After(r, d)) && After(r, d).recorded.Keys == MetKeys(r, d)
  {
    hide HostAfter, MetKeys, IsDirectory;
    forall p | p in r.files
      ensures r.files[p] in r.Keys() && IsDirectory(d.host[r.files[p]]) == IsDirectory(After(r, d).host[r.files[p]])
    {
      assert r.files[p] in r.Keys();
      SameKind(r, d, r.files[p]);
    }
  }

  lemma AfterIsStartup(r: Rootfs, d: Disk)
    requires Sound(r, d)
    ensures Startup(r, d, After(r, d))
  {
    HostsOf(r, d);
    AfterIsSound(r, d);
    hide After, Sound, MetKeys, FileSame, FileLeft, BornOk;
    forall key | key in MetKeys(r, d) ensures key in r.births && FileSame(d, After(r, d), key, r.births[key]) {
      AfterKeeps(r, d, key);
    }
    forall key | key in r.Keys() && key !in MetKeys(r, d) ensures FileLeft(d, After(r, d), key) {
      AfterLeaves(r, d, key);
    }
    forall key | key in After(r, d).recorded ensures BornOk(r, d, key, After(r, d).recorded[key]) {
      AfterKeeps(r, d, key);
    }
  }

  lemma SameKind(r: Rootfs, d: Disk, key: Key)
    requires Sound(r, d) && key in r.Keys()
    ensures IsDirectory(d.host[key]) == IsDirectory(After(r, d).host[key])
  {
    hide MetKeys, Fit, IsLink, Kind, Meant;
  }

  /** A startup can complete if and only if everything that it meets and takes for a directory is one. */
  lemma CompletesExactly(r: Rootfs, before: Disk)
    requires Sound(r, before)
    ensures (exists after :: Startup(r, before, after) && Imported(r, after))
       <==> (forall p | Met(r, before, p) && Opens(r, before, p) :: IsDirectory(before.host[r.files[p]]))
  {
    if after :| Startup(r, before, after) && Imported(r, after) {
      forall p | Met(r, before, p) && Opens(r, before, p) ensures IsDirectory(before.host[r.files[p]]) {
        if !IsDirectory(before.host[r.files[p]]) { NeverCompletes(r, before, after, p); }
      }
    }
    if forall p | Met(r, before, p) && Opens(r, before, p) :: IsDirectory(before.host[r.files[p]]) {
      AfterIsStartup(r, before);
      AfterIsImported(r, before);
    }
  }

  lemma AfterIsImported(r: Rootfs, d: Disk)
    requires Sound(r, d) && Startup(r, d, After(r, d))
    requires forall p | Met(r, d, p) && Opens(r, d, p) :: IsDirectory(d.host[r.files[p]])
    ensures Imported(r, After(r, d))
  {
    var after := After(r, d);
    MetKeysSame(r, d, after);
    forall key | key in MetKeys(r, d) ensures key in r.births && FileImported(after, key, r.births[key]) {
      var p :| p in r.files && Met(r, d, p) && r.files[p] == key;
      AfterKeeps(r, d, key);
      assert r.files[p] in r.Keys() && (IsDirectory(Meant(d, key, r.births[key]).mode) ==> Opens(r, d, p));
      SameKind(r, d, key);
    }
    hide Met, Meant, Fit, After;
  }

  /**
    Without birth times any record of an inode number is taken for the file's. With one of a regular file on a directory, the
    startup that completes drops the owner of what is below it.
   */
  lemma DirectoryTakenForFile() returns (r: Rootfs, before: Disk, after: Disk)
    ensures forall key | key in r.births :: !Known(r.births[key])
    ensures Sound(r, before) && Startup(r, before, after) && Imported(r, after)
    ensures ["f"] in r.files
    ensures var f := r.files[["f"]];
            && f in r.births && f in before.host && f in after.host
            && Meant(before, f, r.births[f]) == Attributes(1000, 1000, 0x81A4)
            && Meant(after, f, r.births[f]) == Attributes(0, 0, 0x81A4) && f !in after.recorded
  {
    var top, f := Key(1, 2), Key(1, 3);
    var asFile, owned := FileOwner(1, 2, 0, 0, 1000, 1000, 0x81A4), FileOwner(1, 3, 0, 0, 1000, 1000, 0x81A4);
    r := Rootfs(map[[] := top, ["f"] := f], map[top := Birth(0, 0), f := Birth(0, 0)]);
    var host := map[top := 0x41ED, f := 0x81A4];
    before, after := Disk(host, map[top := asFile, f := owned]), Disk(host, map[top := asFile]);
    KindsOf();
    TwoFiles(r, before, top, f);
    TwoFiles(r, after, top, f);
    assert FileSame(before, after, top, Birth(0, 0)) && FileLeft(before, after, f);
    assert Startup(r, before, after);
    assert FileImported(after, top, Birth(0, 0));
  }

  /** With one of a directory on a regular file, none completes. */
  lemma FileTakenForDirectory() returns (r: Rootfs, stuck: Disk)
    ensures forall key | key in r.births :: !Known(r.births[key])
    ensures Sound(r, stuck) && forall next | Startup(r, stuck, next) :: !Imported(r, next)
  {
    var top, f := Key(1, 2), Key(1, 3);
    r := Rootfs(map[[] := top, ["f"] := f], map[top := Birth(0, 0), f := Birth(0, 0)]);
    stuck := Disk(map[top := 0x41ED, f := 0x81A4], map[f := FileOwner(1, 3, 0, 0, 1000, 1000, 0x41ED)]);
    KindsOf();
    TwoFiles(r, stuck, top, f);
    assert Opens(r, stuck, []) && Opens(r, stuck, ["f"]);
    forall next | Startup(r, stuck, next) ensures !Imported(r, next) {
      NeverCompletes(r, stuck, next, ["f"]);
    }
  }

  lemma KindsOf()
    ensures IsDirectory(0x41ED) && !IsDirectory(0x81A4) && !IsLink(0x41ED) && Fit(0x81A4, 0x41ED) && Fit(0x81A4, 0x81A4)
  {
  }

  lemma TwoFiles(r: Rootfs, d: Disk, top: Key, f: Key)
    requires top.inode != 0 && f.inode != 0 && top != f && r.files == map[[] := top, ["f"] := f]
    requires top in r.births && f in r.births && top in d.host && f in d.host && IsDirectory(d.host[top])
    ensures Sound(r, d) && r.Keys() == {top, f}
    ensures MetKeys(r, d) == if Opens(r, d, []) then {top, f} else {top}
    ensures Opens(r, d, []) ==> Met(r, d, ["f"])
  {
    assert r.files[[]] == top && r.files[["f"]] == f && Parent(["f"]) == [];
    assert r.Valid() && r.Keys() == {top, f};
    assert Met(r, d, []) && (Met(r, d, ["f"]) <==> Opens(r, d, []));
    assert forall p | p in r.files :: p == [] || p == ["f"];
  }

  // ----- The startups themselves

  /** The store as a first opener finds it: the shared memory is new. */
  function Blank(m: R.Moment): R.Moment {
    m.(image := R.Image(m.image.disk, seq(SLOTS, _ => EMPTY_OWNER), 0, 0, false, false))
  }

  /** The processes are gone, and with them the shared memory. */
  lemma BlankIsOk(r: Rootfs, i: Instant)
    requires Tied(i) && Sound(r, i.disk)
    ensures R.CrashOk(Blank(i.store)) && !Blank(i.store).image.attached && Blank(i.store).history == i.store.history
    ensures InstantOk(r, i.disk, i.(store := Blank(i.store)))
  {
    SameMeaningHere(r, i.disk);
    hide SameMeaning, D.DiskOk, R.Clean, Sound, BornOk;
    BirthsHere(r, i.disk);
  }

  lemma BirthsHere(r: Rootfs, d: Disk)
    ensures BirthsFrom(r, d, d)
  {
  }

  /** Recovery and checkpoints change no record. */
  lemma CompactedKeeps(r: Rootfs, start: Disk, i: Instant, next: R.Moment, ok: bool)
    requires Sound(r, start) && InstantOk(r, start, i) && R.Step(i.store, R.Compacted(ok), next)
    ensures InstantOk(r, start, i.(store := next))
  {
    hide R.CrashOk, SameMeaning, BirthsFrom;
  }

  /** The instants of an operation of the store that changes no record. */
  function Unchanged(d: Disk, moments: seq<R.Moment>): (instants: seq<Instant>)
    ensures |instants| == |moments|
    ensures forall i | 0 <= i < |moments| :: instants[i] == Instant(d, moments[i])
  {
    seq(|moments|, i requires 0 <= i < |moments| => Instant(d, moments[i]))
  }

  lemma AllCompacted(r: Rootfs, start: Disk, i: Instant, moments: seq<R.Moment>)
    requires Sound(r, start) && InstantOk(r, start, i)
    requires forall m | m in moments :: R.Step(i.store, R.Compacted(false), m) || R.Step(i.store, R.Compacted(true), m)
    ensures forall j | j in Unchanged(i.disk, moments) :: InstantOk(r, start, j)
  {
    hide InstantOk, R.Step, Sound;
    forall m | m in moments ensures InstantOk(r, start, i.(store := m)) {
      CompactedKeeps(r, start, i, m, !R.Step(i.store, R.Compacted(false), m));
    }
  }

  /** Recovery, over whatever the processes before have left. The last instant is where it ends. */
  method Recovery(r: Rootfs, at: Instant) returns (instants: seq<Instant>)
    requires Tied(at) && Sound(r, at.disk)
    ensures instants != [] && forall i | i in instants :: InstantOk(r, at.disk, i)
    ensures var last := instants[|instants| - 1];
            last.disk == at.disk && Opening(last.store) && last.store.history == at.store.history
  {
    hide InstantOk, R.Step, Sound, R.CrashOk, R.Clean;
    BlankIsOk(r, at);
    var blank := at.(store := Blank(at.store));
    var process := new S.OwnershipStore.At(blank.store);
    var _ := process.StartUp();
    var moments := process.moments[1..] + [process.Now()];
    AllCompacted(r, at.disk, blank, moments);
    instants := Unchanged(at.disk, moments);
  }

  /** The checkpoint after the scan; if it succeeds the others may attach. */
  method Opened(r: Rootfs, ghost start: Disk, at: Instant) returns (ok: bool, instants: seq<Instant>)
    requires Sound(r, start) && InstantOk(r, start, at) && Opening(at.store)
    ensures instants != [] && forall i | i in instants :: InstantOk(r, start, i)
    ensures instants[|instants| - 1].disk == at.disk && (ok ==> instants[|instants| - 1].store.image.attached)
  {
    hide InstantOk, R.Step, Sound, R.CrashOk, R.Clean;
    TiedAt(r, start, at);
    var process := new S.OwnershipStore.At(at.store);
    ok := process.Checkpoint();
    var moments := process.moments[1..] + [process.Now()];
    if ok {
      var open := process.Now().(image := process.Now().image.(attached := true));
      AttachedKeeps(at.store, process.Now(), open);
      moments := moments + [open];
    }
    AllCompacted(r, start, at, moments);
    instants := Unchanged(at.disk, moments);
  }

  lemma TiedAt(r: Rootfs, start: Disk, i: Instant)
    requires Sound(r, start) && InstantOk(r, start, i)
    ensures Tied(i) && R.CrashOk(i.store)
  {
  }

  lemma AttachedKeeps(m: R.Moment, now: R.Moment, open: R.Moment)
    requires R.Step(m, R.Compacted(true), now) && R.Clean(now.image, now.history)
    requires open == now.(image := now.image.(attached := true))
    ensures R.Step(m, R.Compacted(true), open)
  {
    hide D.DiskOk;
  }

  /**
    One startup over what the processes before have left. It may fail at any point, or be killed at any of
    the instants; the last is where it ends.
   */
  method StartUp(r: Rootfs, at: Instant) returns (ok: bool, instants: seq<Instant>)
    requires Tied(at) && Sound(r, at.disk) && |at.store.history| + |r.files| <= 0x1_0000_0000_0000_0000
    ensures instants != [] && forall i | i in instants :: InstantOk(r, at.disk, i)
    ensures ok ==> var last := instants[|instants| - 1]; Imported(r, last.disk) && last.store.image.attached
  {
    hide InstantOk, Sound, R.CrashOk, R.Clean, Imported;
    instants := Recovery(r, at);
    var last := instants[|instants| - 1];
    ReadyToScan(r, at.disk, last);
    var scanner := new Scanner(r, last.disk, last.store);
    ok := scanner.Scan(at.disk);
    var scanned := Instant(scanner.disk, scanner.store);
    instants := instants + scanner.moments + [scanned];
    if ok {
      var opening;
      ok, opening := Opened(r, at.disk, scanned);
      instants := instants + opening;
    }
  }

  lemma ReadyToScan(r: Rootfs, start: Disk, i: Instant)
    requires Sound(r, start) && InstantOk(r, start, i)
    ensures r.Valid() && Sound(r, i.disk)
  {
  }

  lemma StillSound(truth: Rootfs, seen: seq<Rootfs>, disks: seq<Disk>, n: nat)
    requires n < |seen| && Chain(truth, seen[..n], disks) && Sees(seen[n], truth)
    requires Sound(truth, disks[0]) && Steady(truth, seen, disks[0])
    ensures Sound(seen[n], disks[n]) && Steady(truth, seen[..n + 1], disks[0])
  {
    hide Sees, Settled, Startup, SameMeaning;
    ManyStartups(truth, seen[..n], disks);
    MeaningIsSound(truth, disks[0], disks[n]);
    hide Sound;
    ValidOf(truth, disks[0]);
    if Settled(truth, disks[n]) { SeenAlike(seen[n], truth, disks[n]); }
  }

  lemma ChainGrows(truth: Rootfs, seen: seq<Rootfs>, disks: seq<Disk>, n: nat, i: Instant)
    requires n < |seen| && Chain(truth, seen[..n], disks) && Sees(seen[n], truth)
    requires Sound(truth, disks[0]) && Steady(truth, seen[..n + 1], disks[0])
    requires Sound(seen[n], disks[n]) && InstantOk(seen[n], disks[n], i)
    ensures Chain(truth, seen[..n + 1], disks + [i.disk]) && Tied(i)
    ensures SameMeaning(truth, disks[0], i.disk) && Sound(truth, i.disk)
  {
    hide Sees, Settled, Startup, SameMeaning, Sound, Steady, Tied;
    assert Startup(seen[n], disks[n], i.disk) && seen[..n + 1][..n] == seen[..n];
    LongerChain(truth, seen[..n + 1], disks, i.disk);
    ManyStartups(truth, seen[..n + 1], disks + [i.disk]);
    MeaningIsSound(truth, disks[0], i.disk);
  }

  lemma LongerChain(truth: Rootfs, seen: seq<Rootfs>, disks: seq<Disk>, d: Disk)
    requires seen != [] && Chain(truth, seen[..|seen| - 1], disks) && Sees(seen[|seen| - 1], truth)
    requires Sound(seen[|seen| - 1], disks[|seen| - 1]) && Startup(seen[|seen| - 1], disks[|seen| - 1], d)
    ensures Chain(truth, seen, disks + [d])
  {
    hide Sees, Startup, Sound;
  }

  /**
    Startups one after the other, each seeing the files as in `seen` and each ended by itself or killed, until
    the sequence numbers could run out.
   */
  method Startups(truth: Rootfs, seen: seq<Rootfs>, at: Instant)
    returns (last: Instant, ghost disks: seq<Disk>, completed: bool)
    requires Tied(at) && Sound(truth, at.disk) && Steady(truth, seen, at.disk)
    requires forall r | r in seen :: Sees(r, truth)
    ensures 0 < |disks| <= |seen| + 1 && Chain(truth, seen[..|disks| - 1], disks)
    ensures disks[0] == at.disk && disks[|disks| - 1] == last.disk
    ensures Tied(last) && SameMeaning(truth, at.disk, last.disk)
    ensures completed ==> last.store.image.attached && last.disk.recorded.Keys == MetKeys(truth, at.disk)
    ensures completed && (forall p | p in truth.files && p != [] :: Opens(truth, at.disk, Parent(p))) ==>
              last.disk.recorded.Keys == truth.Keys()
    ensures completed ==> forall key | key in MetKeys(truth, at.disk) ::
              && key in at.disk.host && key in truth.births
              && AttributesOf(last.disk.recorded[key]) == Meant(at.disk, key, truth.births[key])
  {
    hide Sees, Settled, InstantOk, Sound, SameMeaning, Tied, Startup, Imported, R.CrashOk, Meant, Met, MetKeys, Opens;
    ValidOf(truth, at.disk);
    last, disks, completed := at, [at.disk], false;
    SameMeaningHere(truth, at.disk);
    for n := 0 to |seen|
      invariant |disks| == n + 1 && Chain(truth, seen[..n], disks) && disks[0] == at.disk && disks[n] == last.disk
      invariant Tied(last) && Sound(truth, last.disk) && SameMeaning(truth, at.disk, last.disk)
      invariant completed ==> n > 0 && Imported(seen[n - 1], last.disk) && last.store.image.attached
    {
      if |last.store.history| + |seen[n].files| > 0x1_0000_0000_0000_0000 { break; }
      StillSound(truth, seen, disks, n);
      var ok, instants := StartUp(seen[n], last);
      var end: int := *;
      if end < 0 || |instants| <= end { end := |instants| - 1; }
      completed := ok && end == |instants| - 1;
      ChainGrows(truth, seen, disks, n, instants[end]);
      disks, last := disks + [instants[end].disk], instants[end];
    }
    if completed { CompletedStartup(truth, seen[..|disks| - 1], disks); }
  }
}
