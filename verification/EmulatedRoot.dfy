/**
  The emulated pivot_root and bind mounts: how the paths a task uses are turned into
  paths of the rootfs, and rootfs paths back into the paths a tracee would use.
 */
module EmulatedRoot {
  import opened Types
  import Paths

  /** `path == prefix || path.rfind(prefix + "/", 0) == 0` */
  predicate Under(path: string, prefix: string) {
    prefix <= path && (|path| == |prefix| || path[|prefix|] == '/')
  }

  /** An absolute path other than the root, without a trailing slash. */
  predicate Clean(path: string) { |path| >= 2 && path[0] == '/' && path[|path| - 1] != '/' }

  predicate IsPassthrough(path: string) {
    path != "/dev" && path != "/dev/" && !Under(path, "/dev/shm")
    && ("/dev/" <= path || Under(path, "/proc") || Under(path, "/sys"))
  }

  /** The tree at `root`: the path itself, and what continues it after a slash. */
  ghost predicate InTree(path: string, root: string) {
    exists rest :: path == root + rest && (rest == "" || rest[0] == '/')
  }

  lemma UnderIsTree(path: string, root: string)
    ensures Under(path, root) <==> InTree(path, root)
  {
    if Under(path, root) {
      assert path == root + path[|root|..];
    }
  }

  /** Passed through are the trees of /proc and /sys, and what lies below /dev but for the tree of /dev/shm; nothing else. */
  lemma PassthroughExactly(path: string)
    ensures IsPassthrough(path) <==>
              || InTree(path, "/proc") || InTree(path, "/sys")
              || ((exists name :: name != "" && path == "/dev/" + name) && !InTree(path, "/dev/shm"))
  {
    UnderIsTree(path, "/proc");
    UnderIsTree(path, "/sys");
    UnderIsTree(path, "/dev/shm");
    hide Under, InTree;
    if "/dev/" <= path && path != "/dev/" {
      assert path == "/dev/" + path[5..];
    }
    NotBelowDev(path);
  }

  lemma NotBelowDev(path: string)
    ensures Under(path, "/proc") || Under(path, "/sys") ==> !("/dev/" <= path) && path != "/dev"
                                                            && !Under(path, "/dev/shm")
  {
    if Under(path, "/proc") { assert path[1] == "/proc"[1]; }
    if Under(path, "/sys") { assert path[1] == "/sys"[1]; }
    assert "/dev"[1] == "/dev/"[1] == "/dev/shm"[1] == 'd';
  }

  function OrRoot(path: string): string { if path == "" then "/" else path }

  // ----- pivot_root

  /** The directory that has become the root, and where the former root is seen; empty before pivot_root. */
  datatype Roots = Roots(newRoot: string, oldRoot: string) {
    predicate Pivoted() { Clean(newRoot) && (oldRoot == "" || Clean(oldRoot)) }

    /** MapRootfsPathToEmulatedRoot. */
    function View(path: string): string {
      if newRoot == "" || newRoot == "/" then path
      else if path == newRoot then "/"
      else if newRoot + "/" <= path then path[|newRoot|..]
      else if oldRoot == "" then path
      else if path == "/" then oldRoot
      else oldRoot + path
    }

    /** What an absolute path means in the rootfs. */
    function Meaning(path: string): string {
      if oldRoot != "" && Under(path, oldRoot) then OrRoot(path[|oldRoot|..])
      else if newRoot != "" && !IsPassthrough(path) then newRoot + path
      else path
    }

    /** MapEmulatedOldRootInRootfs, for a path relative to a working directory in the rootfs. */
    function RelativeMeaning(path: string): string {
      if oldRoot == "" || !Under(path, newRoot + oldRoot) then path else OrRoot(path[|newRoot + oldRoot|..])
    }
  }

  /** Before pivot_root, and with the root as the new root, paths are reported as they are. */
  lemma Unpivoted(r: Roots, path: string)
    ensures r.newRoot == "" || r.newRoot == "/" ==> r.View(path) == path
    ensures r.newRoot == "" && r.oldRoot == "" ==> r.Meaning(path) == path && r.RelativeMeaning(path) == path
  {
  }

  lemma PrefixSlash(path: string, prefix: string)
    ensures prefix + "/" <= path <==> Under(path, prefix) && path != prefix
  {
    if prefix + "/" <= path {
      assert path[|prefix|] == (prefix + "/")[|prefix|];
      assert path[..|prefix|] == (prefix + "/")[..|prefix|] == prefix;
    }
  }

  lemma UnderSplits(path: string, prefix: string)
    requires Under(path, prefix)
    ensures path == prefix + path[|prefix|..] && (path == prefix || path[|prefix|..][0] == '/')
  {
  }

  lemma JoinedIsUnder(prefix: string, rest: string)
    requires rest == "" || rest[0] == '/'
    ensures Under(prefix + rest, prefix) && (prefix + rest)[|prefix|..] == rest
  {
  }

  lemma ViewOfInside(r: Roots, rest: string)
    requires Clean(r.newRoot) && rest != "" && rest[0] == '/'
    ensures r.View(r.newRoot + rest) == rest
  {
    var path := r.newRoot + rest;
    JoinedIsUnder(r.newRoot, rest);
    PrefixSlash(path, r.newRoot);
  }

  lemma ViewOfOutside(r: Roots, path: string)
    requires Clean(r.newRoot) && !Under(path, r.newRoot)
    ensures r.View(path) == if r.oldRoot == "" then path else if path == "/" then r.oldRoot else r.oldRoot + path
  {
    PrefixSlash(path, r.newRoot);
  }

  lemma MeaningOfOld(r: Roots, rest: string)
    requires Clean(r.oldRoot) && (rest == "" || rest[0] == '/')
    ensures r.Meaning(r.oldRoot + rest) == OrRoot(rest)
  {
    JoinedIsUnder(r.oldRoot, rest);
  }

  /** The name of a file inside the new root. */
  lemma ViewInsideThenMeaning(r: Roots, rest: string)
    requires r.Pivoted() && rest != "" && rest[0] == '/'
    ensures r.Meaning(r.View(r.newRoot + rest)) == r.newRoot + rest <==>
              !((r.oldRoot != "" && Under(rest, r.oldRoot)) || IsPassthrough(rest))
  {
    hide IsPassthrough;
    ViewOfInside(r, rest);
    if r.oldRoot != "" && Under(rest, r.oldRoot) {
      assert |r.Meaning(rest)| < |r.newRoot + rest|;
    }
  }

  /** The name of a file outside the new root. */
  lemma ViewOutsideThenMeaning(r: Roots, path: string)
    requires r.Pivoted() && !Under(path, r.newRoot) && path != "" && path[0] == '/'
    ensures r.Meaning(r.View(path)) == path <==> r.oldRoot != "" || IsPassthrough(path)
  {
    hide IsPassthrough, Under;
    ViewOfOutside(r, path);
    if r.oldRoot != "" {
      MeaningOfOld(r, path);
      MeaningOfOld(r, "");
      assert r.oldRoot + "" == r.oldRoot;
    } else {
      assert |r.newRoot + path| > |path|;
    }
  }

  /**
    Naming a rootfs path as a tracee sees it, and looking that name up again, gives the path back, except
    for a path inside the new root whose name the tracee reads as one of the old root or of a passed-through tree,
    and for a path outside when the old root is nowhere to be seen.
   */
  lemma ViewThenMeaning(r: Roots, path: string)
    requires r.Pivoted() && path != "" && path[0] == '/' && path != r.newRoot
    ensures r.Meaning(r.View(path)) == path <==>
              if Under(path, r.newRoot) then
                !(r.oldRoot != "" && Under(path[|r.newRoot|..], r.oldRoot)) && !IsPassthrough(path[|r.newRoot|..])
              else r.oldRoot != "" || IsPassthrough(path)
  {
    hide IsPassthrough, Roots.View, Roots.Meaning;
    if Under(path, r.newRoot) {
      UnderSplits(path, r.newRoot);
      hide Under;
      ViewInsideThenMeaning(r, path[|r.newRoot|..]);
    } else {
      hide Under;
      ViewOutsideThenMeaning(r, path);
    }
  }

  /** A directory of the new root that has the name of the old one, and a path outside with no old root. */
  lemma NamesAreLost()
    ensures var r := Roots("/a", "/b");
            r.Pivoted() && r.View("/a/b/c") == "/b/c" && r.Meaning("/b/c") == "/c" != "/a/b/c"
    ensures var r := Roots("/a", "");
            r.Pivoted() && r.View("/c") == "/c" && r.Meaning("/c") == "/a/c" != "/c"
  {
    var r := Roots("/a", "/b");
    ViewOfInside(r, "/b/c");
    MeaningOfOld(r, "/c");
    assert "/a" + "/b/c" == "/a/b/c" && "/b" + "/c" == "/b/c";
    var lone := Roots("/a", "");
    assert "/c"[..2] != "/a";
    ViewOfOutside(lone, "/c");
    assert "/a" + "/c" == "/a/c" && !IsPassthrough("/c");
  }

  /** The new root itself comes back as its own directory, with a slash. */
  lemma NewRootIsSlash(r: Roots)
    requires r.Pivoted()
    ensures r.View(r.newRoot) == "/" && r.Meaning("/") == r.newRoot + "/"
  {
  }

  /**
    A name a tracee uses is the one its file is reported under, unless it leads through the old root back
    inside the new one, or ends in the old root's slash.
   */
  lemma MeaningThenView(r: Roots, path: string)
    requires r.Pivoted() && path != "" && path[0] == '/' && !IsPassthrough(path)
    ensures r.View(r.Meaning(path)) == path <==>
              !(r.oldRoot != "" && Under(path, r.oldRoot)
                && (path == r.oldRoot + "/" || Under(path[|r.oldRoot|..], r.newRoot)))
  {
    hide IsPassthrough;
    if r.oldRoot != "" && Under(path, r.oldRoot) {
      UnderSplits(path, r.oldRoot);
      OldNameThenView(r, path[|r.oldRoot|..]);
    } else {
      ViewOfInside(r, path);
    }
  }

  lemma OldNameThenView(r: Roots, rest: string)
    requires r.Pivoted() && r.oldRoot != "" && (rest == "" || rest[0] == '/')
    ensures r.View(r.Meaning(r.oldRoot + rest)) == r.oldRoot + rest <==> rest != "/" && !Under(rest, r.newRoot)
  {
    MeaningOfOld(r, rest);
    hide Roots.Meaning;
    if Under(rest, r.newRoot) {
      assert |r.View(rest)| < |r.oldRoot + rest|;
    } else {
      assert !Under("/", r.newRoot);
      hide Under;
      ViewOfOutside(r, OrRoot(rest));
      assert |r.oldRoot| < |r.oldRoot + "/"|;
    }
  }

  lemma UnderJoined(head: string, path: string, prefix: string)
    ensures Under(head + path, head + prefix) <==> Under(path, prefix)
  {
    if |prefix| <= |path| {
      assert (head + path)[..|head + prefix|] == head + path[..|prefix|];
      assert (head + path[..|prefix|])[|head|..] == path[..|prefix|];
      assert (head + prefix)[|head|..] == prefix;
    }
  }

  /** From a working directory at the new root, a relative path means what the absolute one does. */
  lemma RelativeIsAbsolute(r: Roots, path: string)
    requires r.Pivoted() && path != "" && path[0] == '/' && !IsPassthrough(path)
    ensures r.RelativeMeaning(r.newRoot + path) == r.Meaning(path)
  {
    hide IsPassthrough;
    UnderJoined(r.newRoot, path, r.oldRoot);
    if Under(path, r.oldRoot) {
      assert (r.newRoot + path)[|r.newRoot + r.oldRoot|..] == path[|r.oldRoot|..];
    }
  }

  // ----- Bind mounts

  type Mounts = map<string, string>

  predicate Covers(mounts: Mounts, point: string, path: string) { point in mounts && Under(path, point) }

  /** The longest mount point over a path. */
  ghost predicate Longest(mounts: Mounts, point: string, path: string) {
    Covers(mounts, point, path) && forall p | Covers(mounts, p, path) :: |p| <= |point|
  }

  /** There is only one, so the order in which mounts are listed does not matter. */
  lemma LongestUnique(mounts: Mounts, path: string, p: string, q: string)
    requires Longest(mounts, p, path) && Longest(mounts, q, path)
    ensures p == q
  {
    assert p == path[..|p|] && q == path[..|q|];
  }

  function Moved(mounts: Mounts, point: string, path: string): string
    requires Covers(mounts, point, path)
  {
    var suffix := path[|point|..];
    if mounts[point] == "/" then OrRoot(suffix) else mounts[point] + suffix
  }

  /** What lies behind a mount point is found behind the target, name by name; the point itself is the target. */
  lemma MovedNames(mounts: Mounts, point: string, rest: string)
    requires point in mounts && (rest == "" || rest[0] == '/')
    ensures Covers(mounts, point, point + rest)
    ensures var next := Moved(mounts, point, point + rest);
            && Paths.Split(next) == Paths.Split(mounts[point]) + Paths.Split(rest)
            && (mounts[point] != "" && mounts[point][0] == '/' ==> next[0] == '/')
  {
    hide Paths.Split;
    JoinedIsUnder(point, rest);
    Paths.SplitEmpty();
    var target := mounts[point];
    if rest == "" {
      assert target + rest == target;
    } else if target != "/" {
      Paths.LeadingSlash(rest);
      Paths.Regroup(target, rest);
      Paths.SplitConcat(target, rest[1..]);
    }
  }

  /** A path that no mount moves. */
  ghost predicate Settled(mounts: Mounts, path: string) {
    forall p | Longest(mounts, p, path) :: Moved(mounts, p, path) == path
  }

  /** Each step of `trail` applies the longest mount, named in `used`, and changes the path. */
  ghost predicate Chain(mounts: Mounts, trail: seq<string>, used: seq<string>) {
    && |trail| == |used| + 1
    && forall i | 0 <= i < |used| ::
         Longest(mounts, used[i], trail[i]) && trail[i + 1] == Moved(mounts, used[i], trail[i]) != trail[i]
  }

  lemma ChainGrows(mounts: Mounts, trail: seq<string>, used: seq<string>, point: string, next: string)
    requires Chain(mounts, trail, used) && Longest(mounts, point, trail[|used|])
    requires next == Moved(mounts, point, trail[|used|]) != trail[|used|]
    ensures Chain(mounts, trail + [next], used + [point])
  {
    hide Longest, Moved;
  }

  ghost predicate Distinct(s: seq<string>) { forall i, j | 0 <= i < j < |s| :: s[i] != s[j] }

  lemma {:induction false} DistinctFits(s: seq<string>, keys: set<string>)
    requires Distinct(s) && forall x | x in s :: x in keys
    ensures |s| <= |keys|
  {
    if s != [] {
      var last := s[|s| - 1];
      assert last in s;
      forall x | x in s[..|s| - 1] ensures x in keys - {last} {
        assert exists i | 0 <= i < |s| - 1 :: s[i] == x;
      }
      DistinctFits(s[..|s| - 1], keys - {last});
      assert |keys - {last}| == |keys| - 1;
    }
  }

  /** Rewritings that never use a mount twice are over within the bound. */
  lemma DistinctChainFits(mounts: Mounts, trail: seq<string>, used: seq<string>)
    requires Chain(mounts, trail, used) && Distinct(used)
    ensures |used| <= |mounts|
  {
    forall x | x in used ensures x in mounts.Keys {
      var i :| 0 <= i < |used| && used[i] == x;
      assert Longest(mounts, used[i], trail[i]);
    }
    DistinctFits(used, mounts.Keys);
  }

  /** The longest mount point over a path, found in whatever order the mounts come. */
  method BestMatch(mounts: Mounts, path: string) returns (best: Option<string>)
    ensures best.Some? ==> Longest(mounts, best.value, path)
    ensures best.None? ==> forall p | p in mounts :: !Under(path, p)
  {
    hide Under;
    best := None;
    var left := mounts.Keys;
    while left != {}
      invariant left <= mounts.Keys
      invariant best.Some? ==> Covers(mounts, best.value, path)
      invariant forall p | p in mounts && p !in left && Under(path, p) :: best.Some? && |p| <= |best.value|
      decreases |left|
    {
      var point :| point in left;
      left := left - {point};
      if Under(path, point) && (best.None? || |point| > |best.value|) { best := Some(point); }
    }
  }

  /**
    ResolveEmulatedBindMounts applies the longest mount again and again. Its result is a path that no mount
    moves, or else one more rewriting has been made than there are mounts, so that some mount was used twice.
   */
  method ResolveBindMounts(mounts: Mounts, path: string)
    returns (resolved: string, ghost trail: seq<string>, ghost used: seq<string>)
    ensures Chain(mounts, trail, used) && trail[0] == path && trail[|used|] == resolved
    ensures Settled(mounts, resolved) || (|used| == |mounts| + 1 && !Distinct(used))
  {
    hide Under, Longest, Moved, Covers;
    resolved, trail, used := path, [path], [];
    for depth := 0 to |mounts| + 1
      invariant Chain(mounts, trail, used) && trail[0] == path && trail[|used|] == resolved
      invariant |used| == depth
    {
      var best := BestMatch(mounts, resolved);
      if best.None? {
        NothingCovers(mounts, resolved);
        return;
      }
      LongestCovers(mounts, best.value, resolved);
      var next := Moved(mounts, best.value, resolved);
      if next == resolved {
        SettledByLongest(mounts, resolved, best.value);
        return;
      }
      ChainGrows(mounts, trail, used, best.value, next);
      trail, used := trail + [next], used + [best.value];
      resolved := next;
    }
    if Distinct(used) { DistinctChainFits(mounts, trail, used); }
  }

  lemma LongestCovers(mounts: Mounts, point: string, path: string)
    requires Longest(mounts, point, path)
    ensures Covers(mounts, point, path)
  {
  }

  lemma NothingCovers(mounts: Mounts, path: string)
    requires forall p | p in mounts :: !Under(path, p)
    ensures Settled(mounts, path)
  {
  }

  lemma SettledByLongest(mounts: Mounts, path: string, point: string)
    requires Longest(mounts, point, path) && Moved(mounts, point, path) == path
    ensures Settled(mounts, path)
  {
    forall p | Longest(mounts, p, path) ensures Moved(mounts, p, path) == path {
      LongestUnique(mounts, path, p, point);
    }
  }
}
