/** Path strings and their component lists. */
module Paths {

  type Components = seq<string>

  predicate IsAbsolute(path: string) { path != "" && path[0] == '/' }

  predicate EndsWithSlash(path: string) { path != "" && path[|path| - 1] == '/' }

  /** The index of the first slash at or after `start`, or the length of the path. */
  function SlashFrom(path: string, start: nat): (i: nat)
    requires start <= |path|
    ensures start <= i <= |path| && (i < |path| ==> path[i] == '/')
    ensures forall j | start <= j < i :: path[j] != '/'
    decreases |path| - start
  {
    if start == |path| || path[start] == '/' then start else SlashFrom(path, start + 1)
  }

  /** The nonempty stretches between slashes. */
  function Split(path: string): Components {
    var i := SlashFrom(path, 0);
    Piece(path[..i]) + if i < |path| then Split(path[i + 1..]) else []
  }

  function Piece(s: string): Components { if s == "" then [] else [s] }

  /** Each component behind a slash. */
  function Join(components: Components): string {
    if components == [] then "" else "/" + components[0] + Join(components[1..])
  }

  /** Not empty and without a slash: what splitting yields. */
  predicate IsName(component: string) { component != "" && '/' !in component }

  predicate AllNames(components: Components) {
    forall c | c in components :: IsName(c)
  }

  /** Splitting at a known first slash. */
  lemma SplitAt(path: string, i: nat)
    requires i <= |path| && (forall j | 0 <= j < i :: path[j] != '/') && (i < |path| ==> path[i] == '/')
    ensures SlashFrom(path, 0) == i
    ensures Split(path) == Piece(path[..i]) + if i < |path| then Split(path[i + 1..]) else []
  {
    hide Split, SlashFrom, Piece;
    SplitUnfolds(path, SlashFrom(path, 0));
    SlashIs(path, i);
  }

  lemma SplitUnfolds(path: string, i: nat)
    requires i == SlashFrom(path, 0)
    ensures Split(path) == Piece(path[..i]) + if i < |path| then Split(path[i + 1..]) else []
  {
  }

  lemma SlashIs(path: string, i: nat)
    requires i <= |path| && (forall j | 0 <= j < i :: path[j] != '/') && (i < |path| ==> path[i] == '/')
    ensures SlashFrom(path, 0) == i
  {
    hide *;
    var k := SlashFrom(path, 0);
    if k < i { assert false; }
    if i < k { assert false; }
  }

  lemma {:induction false} SplitNames(path: string)
    ensures AllNames(Split(path))
    decreases |path|
  {
    var i := SlashFrom(path, 0);
    assert '/' !in path[..i];
    if i < |path| { SplitNames(path[i + 1..]); }
  }

  lemma ConcatParts(a: string, b: string, i: nat)
    requires i <= |a|
    ensures (a + "/" + b)[..i] == a[..i]
    ensures i < |a| ==> (a + "/" + b)[i] == a[i] && (a + "/" + b)[i + 1..] == a[i + 1..] + "/" + b
    ensures i == |a| ==> (a + "/" + b)[i] == '/' && (a + "/" + b)[i + 1..] == b
    ensures forall j | 0 <= j < i :: (a + "/" + b)[j] == a[j]
  {
  }

  /** A slash separates: splitting a path joined of two splits both. */
  lemma {:induction false} SplitConcat(a: string, b: string)
    ensures Split(a + "/" + b) == Split(a) + Split(b)
    decreases |a|
  {
    hide Split;
    var i := SlashFrom(a, 0);
    ConcatParts(a, b, i);
    SplitAt(a, i);
    SplitAt(a + "/" + b, i);
    if i < |a| { SplitConcat(a[i + 1..], b); }
  }

  lemma SplitName(c: string)
    requires IsName(c)
    ensures Split(c) == [c] && Split("/" + c) == [c]
  {
    SplitAt(c, |c|);
    assert c[..|c|] == c;
    assert ("/" + c)[..0] == "" && ("/" + c)[1..] == c;
    SplitAt("/" + c, 0);
  }

  /** Joining and splitting are inverse, with or without a slash at the end. */
  lemma {:induction false} SplitJoin(components: Components, tail: string)
    requires AllNames(components) && (tail == "" || tail == "/")
    ensures Split(Join(components) + tail) == components
  {
    hide Split;
    SplitEmpty();
    if components == [] {
      assert Join(components) + tail == tail;
    } else {
      var c, rest := components[0], components[1..];
      var after := Join(rest) + tail;
      SplitJoin(rest, tail);
      SplitName(c);
      assert Join(components) + tail == "/" + c + after;
      if after == "" {
        assert "/" + c + after == "/" + c;
        assert rest == [];
      } else {
        LeadingSlash(after);
        Regroup("/" + c, after);
        SplitConcat("/" + c, after[1..]);
      }
    }
  }

  lemma SplitEmpty()
    ensures Split("") == [] && Split("/") == []
  {
    assert "/"[1..] == "" && "/"[..0] == "";
  }

  lemma LeadingSlash(path: string)
    requires IsAbsolute(path)
    ensures Split(path) == Split(path[1..])
  {
    assert path[..0] == "";
    SplitAt(path, 0);
  }

  lemma Regroup(a: string, b: string)
    requires IsAbsolute(b)
    ensures a + b == a + "/" + b[1..]
  {
    assert b == "/" + b[1..];
  }

  /** The loop that cuts a path into components. */
  method SplitPath(path: string) returns (components: Components)
    ensures components == Split(path)
  {
    hide Split;
    components := [];
    var start := 0;
    assert path[0..] == path;
    while start <= |path|
      invariant start <= |path| && components + Split(path[start..]) == Split(path)
      decreases |path| - start
    {
      var slash := SlashFrom(path, start);
      SplitFrom(path, start);
      if slash != start { components := components + [path[start..slash]]; }
      if slash == |path| { break; }
      start := slash + 1;
    }
  }

  lemma SplitFrom(path: string, start: nat)
    requires start <= |path|
    ensures var i := SlashFrom(path, start);
            Split(path[start..]) == Piece(path[start..i]) + if i < |path| then Split(path[i + 1..]) else []
  {
    hide SlashFrom, Split;
    var i, tail := SlashFrom(path, start), path[start..];
    SplitAt(tail, i - start);
    assert tail[..i - start] == path[start..i];
    if i < |path| { assert tail[i - start + 1..] == path[i + 1..]; }
  }
}
