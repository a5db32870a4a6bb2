/**
  Resolution of virtual symbolic links: a worklist of components, expanded where a
  prefix is a link, within a budget of 40 links. `links` stands for readlink on the
  rootfs and is fixed during a walk; `permit` for the search permission on a directory.
 */
module Walk {
  import opened Paths

  const MAX_LINKS: nat := 40

  type Links = Components -> Target
  type Permit = Components -> bool

  /** What readlink says of a path: not a link, or a link with this text. */
  datatype Target = NotLink | Link(text: string)

  /** The variables of the loop; `directory` is what a trailing slash asks for. */
  datatype Place = Place(resolved: Components, directory: bool, links: nat)

  datatype Outcome = Done(place: Place) | OverBudget | Forbidden

  function Up(resolved: Components): Components {
    if resolved == [] then [] else resolved[..|resolved| - 1]
  }

  predicate Finished(rest: Components, follow: bool, p: Place) {
    rest == [] && !follow && !p.directory
  }

  /** One turn of the loop on `component`, which is none of "." and "..", with `rest` still to come. */
  datatype Turn = Push(place: Place) | Expand(place: Place, front: Components) | TooMany

  function Step(links: Links, component: string, rest: Components, follow: bool, p: Place): Turn {
    var candidate := p.resolved + [component];
    if Finished(rest, follow, p) then Push(p.(resolved := candidate))
    else match links(candidate)
         case NotLink => Push(p.(resolved := candidate))
         case Link(text) =>
           if p.links + 1 > MAX_LINKS then TooMany
           else Expand(Place(if IsAbsolute(text) then [] else p.resolved,
                             p.directory || EndsWithSlash(text), p.links + 1), Split(text))
  }

  /** The loop. It ends because every turn uses up a component or a link of the budget. */
  function Resolve(links: Links, permit: Permit, pending: Components, follow: bool, p: Place): Outcome
    decreases if p.links <= MAX_LINKS then MAX_LINKS - p.links else 0, |pending|
  {
    if pending == [] then Done(p)
    else if !permit(p.resolved) then Forbidden
    else if pending[0] == "." then Resolve(links, permit, pending[1..], follow, p)
    else if pending[0] == ".." then Resolve(links, permit, pending[1..], follow, p.(resolved := Up(p.resolved)))
    else match Step(links, pending[0], pending[1..], follow, p)
         case TooMany => OverBudget
         case Push(next) => Resolve(links, permit, pending[1..], follow, next)
         case Expand(next, front) => Resolve(links, permit, front + pending[1..], follow, next)
  }

  /** The path string for resolved components. */
  function Render(p: Place): string {
    if p.resolved == [] then "/" else Join(p.resolved) + if p.directory then "/" else ""
  }

  function Start(path: string): Place {
    Place([], |path| > 1 && EndsWithSlash(path), 0)
  }

  /** The whole function; with the budget exceeded it hands back its input. */
  function Resolved(links: Links, permit: Permit, path: string, follow: bool): string {
    match Resolve(links, permit, Split(path), follow, Start(path))
    case Done(p) => Render(p)
    case OverBudget => path
    case Forbidden => ""
  }

  function Anywhere(directory: Components): bool { true }

  // ----- The budget, as a number of links met

  datatype Walker = Walker(pending: Components, place: Place)

  /** One turn of a walk that has no budget and only counts the links it meets. */
  function Onward(links: Links, follow: bool, w: Walker): Walker {
    if w.pending == [] then w
    else
      var component, rest, p := w.pending[0], w.pending[1..], w.place;
      var candidate := p.resolved + [component];
      if component == "." then Walker(rest, p)
      else if component == ".." then Walker(rest, p.(resolved := Up(p.resolved)))
      else if Finished(rest, follow, p) || links(candidate).NotLink? then Walker(rest, p.(resolved := candidate))
      else var text := links(candidate).text;
           Walker(Split(text) + rest, Place(if IsAbsolute(text) then [] else p.resolved,
                                            p.directory || EndsWithSlash(text), p.links + 1))
  }

  function After(links: Links, follow: bool, w: Walker, n: nat): Walker
    decreases n
  {
    if n == 0 then w else After(links, follow, Onward(links, follow, w), n - 1)
  }

  predicate Arrived(w: Walker) { w.pending == [] && w.place.links <= MAX_LINKS }

  /** The walk comes to its end and meets at most 40 links on its way. */
  ghost predicate EndsWithin(links: Links, path: string, follow: bool) {
    exists n: nat :: Arrived(After(links, follow, Walker(Split(path), Start(path)), n))
  }

  lemma {:induction false} LinksOnlyGrow(links: Links, follow: bool, w: Walker, n: nat)
    ensures After(links, follow, w, n).place.links >= w.place.links
    ensures w.pending == [] ==> After(links, follow, w, n) == w
    decreases n
  {
    hide Split;
    if n > 0 { LinksOnlyGrow(links, follow, Onward(links, follow, w), n - 1); }
  }

  lemma {:induction false} AfterMore(links: Links, follow: bool, w: Walker, m: nat, n: nat)
    ensures After(links, follow, w, m + n) == After(links, follow, After(links, follow, w, m), n)
    decreases m
  {
    if m > 0 { AfterMore(links, follow, Onward(links, follow, w), m - 1, n); }
  }

  lemma OneTurn(links: Links, pending: Components, follow: bool, p: Place)
    requires pending != [] && p.links <= MAX_LINKS
    ensures var next := Onward(links, follow, Walker(pending, p));
            && (next.place.links == p.links + 1 || (next.place.links == p.links && |next.pending| < |pending|))
            && Resolve(links, Anywhere, pending, follow, p) ==
               if next.place.links > MAX_LINKS then OverBudget
               else Resolve(links, Anywhere, next.pending, follow, next.place)
  {
    hide Split, Up, IsAbsolute, EndsWithSlash;
  }

  /** The loop ends where the walk without a budget comes to, unless that walk meets a link too many. */
  lemma {:induction false} EndsOrExceeds(links: Links, pending: Components, follow: bool, p: Place) returns (n: nat)
    requires p.links <= MAX_LINKS
    ensures var o := Resolve(links, Anywhere, pending, follow, p);
            var w := After(links, follow, Walker(pending, p), n);
            if o.Done? then w == Walker([], o.place) && Arrived(w) else o.OverBudget? && w.place.links > MAX_LINKS
    decreases MAX_LINKS - p.links, |pending|
  {
    hide Split, Onward;
    if pending == [] {
      n := 0;
    } else {
      OneTurn(links, pending, follow, p);
      hide Resolve;
      var next := Onward(links, follow, Walker(pending, p));
      if next.place.links > MAX_LINKS {
        n := 1;
        assert After(links, follow, Walker(pending, p), 1) == After(links, follow, next, 0);
      } else {
        n := EndsOrExceeds(links, next.pending, follow, next.place);
        n := n + 1;
      }
    }
  }

  lemma ArrivedOnce(links: Links, follow: bool, w: Walker, m: nat, n: nat)
    requires After(links, follow, w, m).pending == []
    ensures After(links, follow, w, n).place.links <= After(links, follow, w, m).place.links
  {
    if n <= m {
      AfterMore(links, follow, w, n, m - n);
      LinksOnlyGrow(links, follow, After(links, follow, w, n), m - n);
    } else {
      AfterMore(links, follow, w, m, n - m);
      LinksOnlyGrow(links, follow, After(links, follow, w, m), n - m);
    }
  }

  lemma WithinBudget(links: Links, path: string, follow: bool)
    ensures EndsWithin(links, path, follow) <==> Resolve(links, Anywhere, Split(path), follow, Start(path)).Done?
  {
    hide Split, Resolve, After;
    var w := Walker(Split(path), Start(path));
    var n := EndsOrExceeds(links, Split(path), follow, Start(path));
    if m: nat :| Arrived(After(links, follow, w, m)) { ArrivedOnce(links, follow, w, m, n); }
  }

  // ----- Results are clean and free of links

  predicate IsPlain(component: string) { IsName(component) && component != "." && component != ".." }

  predicate AllPlain(components: Components) { forall c | c in components :: IsPlain(c) }

  /** No prefix of the path is a link, except possibly the whole of it. */
  ghost predicate NoLinks(links: Links, components: Components, whole: bool) {
    forall k | 0 < k <= |components| && (k < |components| || whole) :: links(components[..k]).NotLink?
  }

  lemma PrefixPlain(links: Links, components: Components)
    requires AllPlain(components) && NoLinks(links, components, true)
    ensures AllPlain(Up(components)) && NoLinks(links, Up(components), true)
  {
    var up := Up(components);
    forall k | 0 < k <= |up| ensures links(up[..k]).NotLink? {
      assert up[..k] == components[..k];
    }
  }

  lemma PushPlain(links: Links, components: Components, c: string, whole: bool)
    requires AllPlain(components) && NoLinks(links, components, true) && IsPlain(c)
    requires whole ==> links(components + [c]).NotLink?
    ensures AllPlain(components + [c]) && NoLinks(links, components + [c], whole)
  {
    var next := components + [c];
    forall k | 0 < k <= |next| && (k < |next| || whole) ensures links(next[..k]).NotLink? {
      if k < |next| { assert next[..k] == components[..k]; } else { assert next[..k] == next; }
    }
  }

  /**
    A walk that ends within the budget ends at plain names none of whose prefixes is a link, apart from
    a last component that was not to be followed.
   */
  lemma {:induction false} ResultIsClean(links: Links, permit: Permit, pending: Components, follow: bool, p: Place)
    requires AllNames(pending) && AllPlain(p.resolved) && NoLinks(links, p.resolved, true)
    ensures var o := Resolve(links, permit, pending, follow, p);
            o.Done? ==> AllPlain(o.place.resolved)
                        && NoLinks(links, o.place.resolved, follow || o.place.directory)
                        && (p.directory ==> o.place.directory)
    decreases if p.links <= MAX_LINKS then MAX_LINKS - p.links else 0, |pending|
  {
    hide Split, IsAbsolute, EndsWithSlash;
    if pending != [] && permit(p.resolved) {
      var c, rest := pending[0], pending[1..];
      if c == "." {
        ResultIsClean(links, permit, rest, follow, p);
      } else if c == ".." {
        PrefixPlain(links, p.resolved);
        ResultIsClean(links, permit, rest, follow, p.(resolved := Up(p.resolved)));
      } else {
        match Step(links, c, rest, follow, p)
        case TooMany =>
        case Push(next) =>
          PushPlain(links, p.resolved, c, !Finished(rest, follow, p));
          if !Finished(rest, follow, p) { ResultIsClean(links, permit, rest, follow, next); }
        case Expand(next, front) =>
          SplitNames(links(p.resolved + [c]).text);
          ResultIsClean(links, permit, front + rest, follow, next);
      }
    }
  }

  /** A path of plain names without links resolves to itself. */
  lemma {:induction false} CleanWalk(links: Links, pending: Components, follow: bool, p: Place)
    requires AllPlain(pending) && NoLinks(links, p.resolved + pending, follow || p.directory)
    ensures Resolve(links, Anywhere, pending, follow, p) == Done(p.(resolved := p.resolved + pending))
    decreases |pending|
  {
    if pending == [] {
      assert p.resolved + pending == p.resolved;
    } else {
      var c, rest := pending[0], pending[1..];
      var all, next := p.resolved + pending, p.resolved + [c];
      assert IsPlain(c);
      assert all[..|next|] == next && next + rest == all;
      CleanWalk(links, rest, follow, p.(resolved := next));
    }
  }

  lemma {:induction false} JoinedEnd(components: Components)
    requires AllNames(components) && components != []
    ensures |Join(components)| > 1 && !EndsWithSlash(Join(components))
  {
    var c, rest := components[0], components[1..];
    assert IsName(c);
    assert c[|c| - 1] in c;
    if rest == [] {
      assert Join(components) == "/" + c;
      assert ("/" + c)[|c|] == c[|c| - 1];
    } else {
      JoinedEnd(rest);
    }
  }

  /** Rendering a place and starting over from the string gives back its components and its trailing slash. */
  lemma RenderedStart(p: Place)
    requires AllNames(p.resolved)
    ensures Split(Render(p)) == p.resolved
    ensures Start(Render(p)).directory == (p.resolved != [] && p.directory)
  {
    SplitEmpty();
    if p.resolved != [] {
      SplitJoin(p.resolved, if p.directory then "/" else "");
      JoinedEnd(p.resolved);
      if !p.directory { assert Join(p.resolved) + "" == Join(p.resolved); }
    }
  }

  /** What Resolved promises of its result: plain names, and no link but a last one not to be followed. */
  ghost predicate Canonical(links: Links, path: string, follow: bool) {
    AllPlain(Split(path)) && NoLinks(links, Split(path), follow || Start(path).directory)
  }

  /** The result is canonical exactly when the walk ends and meets at most 40 links. */
  lemma CanonicalExactlyWithinBudget(links: Links, path: string, follow: bool)
    ensures Canonical(links, Resolved(links, Anywhere, path, follow), follow) <==> EndsWithin(links, path, follow)
  {
    hide Split, Render, Resolve, EndsWithin;
    WithinBudget(links, path, follow);
    NeverForbidden(links, Split(path), follow, Start(path));
    match Resolve(links, Anywhere, Split(path), follow, Start(path))
    case Done(q) =>
      SplitNames(path);
      ResultIsClean(links, Anywhere, Split(path), follow, Start(path));
      RenderedStart(q);
    case OverBudget =>
      if Canonical(links, path, follow) {
        assert [] + Split(path) == Split(path);
        CleanWalk(links, Split(path), follow, Start(path));
      }
    case Forbidden =>
  }

  lemma {:induction false} NeverForbidden(links: Links, pending: Components, follow: bool, p: Place)
    ensures Resolve(links, Anywhere, pending, follow, p) != Forbidden
    decreases if p.links <= MAX_LINKS then MAX_LINKS - p.links else 0, |pending|
  {
    if pending != [] {
      var c, rest := pending[0], pending[1..];
      if c == "." {
        NeverForbidden(links, rest, follow, p);
      } else if c == ".." {
        NeverForbidden(links, rest, follow, p.(resolved := Up(p.resolved)));
      } else {
        match Step(links, c, rest, follow, p)
        case TooMany =>
        case Push(next) => NeverForbidden(links, rest, follow, next);
        case Expand(next, front) => NeverForbidden(links, front + rest, follow, next);
      }
    }
  }

  /** Resolving a second time changes nothing. */
  lemma ResolvedIdempotent(links: Links, path: string, follow: bool)
    requires EndsWithin(links, path, follow)
    ensures var s := Resolved(links, Anywhere, path, follow);
            IsAbsolute(s) && Resolved(links, Anywhere, s, follow) == s
  {
    hide Split, Resolve, EndsWithin;
    WithinBudget(links, path, follow);
    var q := Resolve(links, Anywhere, Split(path), follow, Start(path)).place;
    var s := Render(q);
    SplitNames(path);
    ResultIsClean(links, Anywhere, Split(path), follow, Start(path));
    RenderedStart(q);
    assert [] + q.resolved == q.resolved;
    CleanWalk(links, q.resolved, follow, Start(s));
  }

  /** Behind a root, the result names something at or below that root. */
  lemma ResultStaysBelow(links: Links, root: string, path: string, follow: bool)
    requires EndsWithin(links, path, follow)
    ensures var s := Resolved(links, Anywhere, path, follow);
            Split(root + s) == Split(root) + Split(s) && AllPlain(Split(s))
  {
    hide Split, Resolve, Render, EndsWithin;
    var s := Resolved(links, Anywhere, path, follow);
    CanonicalExactlyWithinBudget(links, path, follow);
    ResolvedIdempotent(links, path, follow);
    Regroup(root, s);
    SplitConcat(root, s[1..]);
    LeadingSlash(s);
  }

  lemma SelfLinkParts()
    ensures Split("/l") == ["l"] && !EndsWithSlash("/l")
  {
    SplitName("l");
    assert "/" + "l" == "/l";
  }

  lemma {:induction false} SelfLinkLoops(links: Links, p: Place)
    requires links(["l"]) == Link("/l") && p.resolved == [] && p.links <= MAX_LINKS
    ensures Resolve(links, Anywhere, ["l"], true, p) == OverBudget
    decreases MAX_LINKS - p.links
  {
    SelfLinkParts();
    hide Split;
    assert [] + ["l"] == ["l"] && ["l"] + [] == ["l"] && ["l"][1..] == [];
    if p.links < MAX_LINKS {
      SelfLinkLoops(links, Place([], p.directory, p.links + 1));
    }
  }

  /** A link to itself exceeds the budget, and the caller gets the link back. */
  lemma SelfLinkExceeds(links: Links)
    requires links(["l"]) == Link("/l")
    ensures Resolved(links, Anywhere, "/l", true) == "/l" && !Canonical(links, "/l", true)
  {
    hide Split, Resolve, EndsWithSlash;
    SelfLinkParts();
    SelfLinkLoops(links, Start("/l"));
    assert ["l"][..1] == ["l"];
  }

  // ----- Composition

  /** Following final links, a walk over two stretches is a walk over the second from where the first ends. */
  lemma {:induction false} ResolveAppend(links: Links, permit: Permit, a: Components, b: Components, p: Place)
    ensures Resolve(links, permit, a + b, true, p) ==
            match Resolve(links, permit, a, true, p)
            case Done(q) => Resolve(links, permit, b, true, q)
            case o => o
    decreases if p.links <= MAX_LINKS then MAX_LINKS - p.links else 0, |a|
  {
    if a == [] {
      assert a + b == b;
    } else {
      var c, rest := a[0], a[1..];
      assert (a + b)[0] == c && (a + b)[1..] == rest + b;
      if permit(p.resolved) {
        if c == "." {
          ResolveAppend(links, permit, rest, b, p);
        } else if c == ".." {
          ResolveAppend(links, permit, rest, b, p.(resolved := Up(p.resolved)));
        } else {
          match Step(links, c, rest, true, p)
          case TooMany =>
          case Push(next) => ResolveAppend(links, permit, rest, b, next);
          case Expand(next, front) =>
            assert front + (rest + b) == (front + rest) + b;
            ResolveAppend(links, permit, front + rest, b, next);
        }
      }
    }
  }

  /** Following final links, neither the trailing-slash flag nor links already used up change the components. */
  lemma {:induction false} FreshBudget(links: Links, pending: Components, p: Place, q: Place)
    requires q.resolved == p.resolved && q.links <= p.links
    requires Resolve(links, Anywhere, pending, true, p).Done?
    ensures var o := Resolve(links, Anywhere, pending, true, q);
            o.Done? && o.place.resolved == Resolve(links, Anywhere, pending, true, p).place.resolved
    decreases if p.links <= MAX_LINKS then MAX_LINKS - p.links else 0, |pending|
  {
    if pending != [] {
      var c, rest := pending[0], pending[1..];
      if c == "." {
        FreshBudget(links, rest, p, q);
      } else if c == ".." {
        FreshBudget(links, rest, p.(resolved := Up(p.resolved)), q.(resolved := Up(q.resolved)));
      } else {
        match Step(links, c, rest, true, p)
        case TooMany =>
        case Push(next) => FreshBudget(links, rest, next, Step(links, c, rest, true, q).place);
        case Expand(next, front) => FreshBudget(links, front + rest, next, Step(links, c, rest, true, q).place);
      }
    }
  }

  /** Resolving a/b is resolving a first and then b from there. */
  lemma ResolveComposes(links: Links, a: string, b: string)
    requires EndsWithin(links, a + "/" + b, true)
    ensures EndsWithin(links, a, true)
    ensures var first := Resolved(links, Anywhere, a, true);
            && EndsWithin(links, first + "/" + b, true)
            && Split(Resolved(links, Anywhere, first + "/" + b, true))
               == Split(Resolved(links, Anywhere, a + "/" + b, true))
  {
    hide Split, Resolve, Render, EndsWithin;
    WithinBudget(links, a + "/" + b, true);
    WithinBudget(links, a, true);
    var p := Start(a + "/" + b);
    SplitConcat(a, b);
    ResolveAppend(links, Anywhere, Split(a), Split(b), p);
    var q := Resolve(links, Anywhere, Split(a), true, p).place;
    FreshBudget(links, Split(a), p, Start(a));
    var first := Resolve(links, Anywhere, Split(a), true, Start(a)).place;
    SplitNames(a);
    ResultIsClean(links, Anywhere, Split(a), true, Start(a));
    RenderedStart(first);
    SplitConcat(Render(first), b);
    var r := Start(Render(first) + "/" + b);
    ResolveAppend(links, Anywhere, first.resolved, Split(b), r);
    assert [] + first.resolved == first.resolved;
    CleanWalk(links, first.resolved, true, r);
    FreshBudget(links, Split(b), q, r.(resolved := first.resolved));
    WithinBudget(links, Render(first) + "/" + b, true);
    ResultComponents(links, a + "/" + b);
    ResultComponents(links, Render(first) + "/" + b);
  }

  lemma ResultComponents(links: Links, path: string)
    requires Resolve(links, Anywhere, Split(path), true, Start(path)).Done?
    ensures Split(Resolved(links, Anywhere, path, true))
         == Resolve(links, Anywhere, Split(path), true, Start(path)).place.resolved
  {
    hide Split, Resolve, Render;
    SplitNames(path);
    ResultIsClean(links, Anywhere, Split(path), true, Start(path));
    RenderedStart(Resolve(links, Anywhere, Split(path), true, Start(path)).place);
  }

  // ----- What the components of a path mean

  /** A path followed by ".." leads to the directory that holds what the path leads to; the root holds itself. */
  lemma DotDotIsParent(links: Links, path: Components, rest: Components, p: Place, q: Place, name: string)
    requires Resolve(links, Anywhere, path, true, p) == Done(q)
    ensures q.resolved == [] ==>
              Resolve(links, Anywhere, path + [".."] + rest, true, p) == Resolve(links, Anywhere, rest, true, q)
    ensures forall parent: Components | q.resolved == parent + [name] ::
              Resolve(links, Anywhere, path + [".."] + rest, true, p)
              == Resolve(links, Anywhere, rest, true, q.(resolved := parent))
  {
    assert path + [".."] + rest == path + ([".."] + rest);
    ResolveAppend(links, Anywhere, path, [".."] + rest, p);
    Unfolded(links, Anywhere, "..", rest, true, q);
    hide Resolve;
    forall parent: Components | q.resolved == parent + [name]
      ensures Up(q.resolved) == parent
    {
      assert (parent + [name])[..|parent|] == parent;
    }
  }

  /** A name that is no link, followed by "..", cancels out wherever it stands; a dot always does. */
  lemma DotsCancel(links: Links, path: Components, c: string, rest: Components, p: Place)
    requires Resolve(links, Anywhere, path, true, p).Done? && IsPlain(c)
    requires links(Resolve(links, Anywhere, path, true, p).place.resolved + [c]).NotLink?
    ensures Resolve(links, Anywhere, path + [c, ".."] + rest, true, p) == Resolve(links, Anywhere, path + rest, true, p)
    ensures Resolve(links, Anywhere, path + ["."] + rest, true, p) == Resolve(links, Anywhere, path + rest, true, p)
  {
    hide Resolve;
    var q := Resolve(links, Anywhere, path, true, p).place;
    var next := q.(resolved := q.resolved + [c]);
    assert path + [c, ".."] + rest == path + ([c] + ([".."] + rest));
    assert path + ["."] + rest == path + (["."] + rest);
    ResolveAppend(links, Anywhere, path, [c] + ([".."] + rest), p);
    ResolveAppend(links, Anywhere, path, ["."] + rest, p);
    ResolveAppend(links, Anywhere, path, rest, p);
    Unfolded(links, Anywhere, c, [".."] + rest, true, q);
    Unfolded(links, Anywhere, "..", rest, true, next);
    Unfolded(links, Anywhere, ".", rest, true, q);
    assert next.resolved[..|next.resolved| - 1] == q.resolved;
  }

  function DotDots(k: nat): Components { seq(k, _ => "..") }

  lemma {:induction false} ClimbUp(links: Links, base: Components, k: nat, rest: Components, follow: bool, p: Place)
    requires k <= |base| && p.resolved == base
    ensures Resolve(links, Anywhere, DotDots(k) + rest, follow, p)
         == Resolve(links, Anywhere, rest, follow, p.(resolved := base[..|base| - k]))
    decreases k
  {
    if k == 0 {
      assert DotDots(k) + rest == rest && base[..|base|] == base;
    } else {
      var up := base[..|base| - 1];
      assert DotDots(k) + rest == [".."] + (DotDots(k - 1) + rest);
      Unfolded(links, Anywhere, "..", DotDots(k - 1) + rest, follow, p);
      ClimbUp(links, up, k - 1, rest, follow, p.(resolved := up));
      assert up[..|up| - (k - 1)] == base[..|base| - k];
    }
  }

  /** Below a directory without links, climbing k of the names just walked leaves the others. */
  lemma LexicalNormalForm(links: Links, names: Components, k: nat, rest: Components, p: Place)
    requires AllPlain(names) && NoLinks(links, p.resolved + names, true) && k <= |names|
    ensures Resolve(links, Anywhere, names + DotDots(k) + rest, true, p)
         == Resolve(links, Anywhere, names[..|names| - k] + rest, true, p)
  {
    hide Resolve;
    var kept, all := names[..|names| - k], p.resolved + names;
    assert names + DotDots(k) + rest == names + (DotDots(k) + rest);
    ResolveAppend(links, Anywhere, names, DotDots(k) + rest, p);
    CleanWalk(links, names, true, p);
    ClimbUp(links, all, k, rest, true, p.(resolved := all));
    var less := p.resolved + kept;
    assert all[..|all| - k] == less;
    forall i | 0 < i <= |less| ensures links(less[..i]).NotLink? {
      assert less[..i] == all[..i];
    }
    CleanWalk(links, kept, true, p);
    ResolveAppend(links, Anywhere, kept, rest, p);
  }

  /** Dots at the root, and behind a name: "/../a/b/../c" is "/a/c" where nothing is a link. */
  lemma DotDotExample(links: Links)
    requires forall path :: links(path).NotLink?
    ensures Resolved(links, Anywhere, "/../a/b/../c", true) == "/a/c"
  {
    hide Split, Resolve, Join;
    JoinedExample();
    SplitJoin(["..", "a", "b", "..", "c"], "");
    ExampleWalk(links, Start("/../a/b/../c"));
    assert "/a/c" + "" == "/a/c";
  }

  lemma ExampleWalk(links: Links, p: Place)
    requires forall path :: links(path).NotLink?
    requires p.resolved == []
    ensures Resolve(links, Anywhere, ["..", "a", "b", "..", "c"], true, p) == Done(p.(resolved := ["a", "c"]))
  {
    hide Resolve;
    NothingPending(links, Anywhere, true, p);
    DotDotIsParent(links, [], ["a", "b", "..", "c"], p, p, "");
    assert ["..", "a", "b", "..", "c"] == [] + [".."] + ["a", "b", "..", "c"];
    var b := ["a", "b"];
    assert [] + b == b;
    LexicalNormalForm(links, b, 1, ["c"], p);
    assert ["a", "b", "..", "c"] == b + DotDots(1) + ["c"];
    assert b[..1] + ["c"] == ["a", "c"] && [] + ["a", "c"] == ["a", "c"];
    CleanWalk(links, ["a", "c"], true, p);
  }

  lemma JoinedExample()
    ensures Join(["..", "a", "b", "..", "c"]) + "" == "/../a/b/../c"
    ensures Join(["a", "c"]) == "/a/c"
  {
    JoinedOnce("c", []);
    JoinedOnce("..", ["c"]);
    JoinedOnce("b", ["..", "c"]);
    JoinedOnce("a", ["b", "..", "c"]);
    JoinedOnce("..", ["a", "b", "..", "c"]);
    JoinedOnce("a", ["c"]);
  }

  lemma JoinedOnce(c: string, rest: Components)
    ensures Join([c] + rest) == "/" + c + Join(rest)
  {
    assert ([c] + rest)[1..] == rest;
  }

  // ----- What a link means

  /** The path that a link stands for, seen from the directory it lies in. */
  function Through(directory: Components, text: string): string {
    if IsAbsolute(text) then text else Join(directory) + "/" + text
  }

  /** Behind a link in a directory free of links lies what lies behind its text. */
  lemma LinkMeans(links: Links, directory: Components, c: string, text: string, rest: string)
    requires AllPlain(directory) && NoLinks(links, directory, true) && IsPlain(c)
    requires links(directory + [c]) == Link(text)
    requires EndsWithin(links, Join(directory) + "/" + c + "/" + rest, true)
    ensures var target := Through(directory, text) + "/" + rest;
            && EndsWithin(links, target, true)
            && Split(Resolved(links, Anywhere, Join(directory) + "/" + c + "/" + rest, true))
               == Split(Resolved(links, Anywhere, target, true))
  {
    hide *;
    var path, target := Join(directory) + "/" + c + "/" + rest, Through(directory, text) + "/" + rest;
    WithinBudget(links, path, true);
    WithinBudget(links, target, true);
    Regrouped(Join(directory), c, rest);
    Regrouped(Join(directory), text, rest);
    Starts(path);
    Starts(target);
    var p, r := Start(path), Start(target);
    ViaDirectory(links, directory, c + "/" + rest, p);
    ViaDirectory(links, directory, text + "/" + rest, r);
    SplitConcat(c, rest);
    IsPlainName(c);
    SplitName(c);
    SplitConcat(text, rest);
    Throughs(directory, text);
    LinkWalk(links, c, text, Split(rest), p.(resolved := directory), r.(resolved := if IsAbsolute(text) then [] else directory));
    ResultComponents(links, path);
    ResultComponents(links, target);
  }

  lemma Regrouped(a: string, b: string, c: string)
    ensures a + "/" + b + "/" + c == a + "/" + (b + "/" + c)
  {
  }

  lemma Starts(path: string)
    ensures Start(path).resolved == [] && Start(path).links == 0
  {
  }

  lemma IsPlainName(c: string)
    requires IsPlain(c)
    ensures IsName(c)
  {
  }

  lemma Throughs(directory: Components, text: string)
    ensures Through(directory, text) == if IsAbsolute(text) then text else Join(directory) + "/" + text
  {
  }

  lemma LinkWalk(links: Links, c: string, text: string, rest: Components, p: Place, r: Place)
    requires IsPlain(c) && links(p.resolved + [c]) == Link(text) && p.links == r.links == 0
    requires r.resolved == if IsAbsolute(text) then [] else p.resolved
    requires Resolve(links, Anywhere, [c] + rest, true, p).Done?
    ensures var o := Resolve(links, Anywhere, Split(text) + rest, true, r);
            o.Done? && o.place.resolved == Resolve(links, Anywhere, [c] + rest, true, p).place.resolved
  {
    hide Split, Resolve, IsAbsolute, EndsWithSlash;
    Unfolded(links, Anywhere, c, rest, true, p);
    FreshBudget(links, Split(text) + rest, Step(links, c, rest, true, p).place, r);
  }

  /** A walk through a directory free of links goes on from there. */
  lemma ViaDirectory(links: Links, directory: Components, rest: string, p: Place)
    requires AllPlain(directory) && NoLinks(links, directory, true) && p.resolved == []
    ensures Resolve(links, Anywhere, Split(Join(directory) + "/" + rest), true, p)
         == Resolve(links, Anywhere, Split(rest), true, p.(resolved := directory))
  {
    hide Split, Resolve;
    SplitConcat(Join(directory), rest);
    SplitJoin(directory, "");
    assert Join(directory) + "" == Join(directory);
    assert [] + directory == directory;
    ResolveAppend(links, Anywhere, directory, Split(rest), p);
    CleanWalk(links, directory, true, p);
  }

  lemma Rendered(p: Place)
    ensures p.resolved != [] ==> Render(p) == Join(p.resolved) + if p.directory then "/" else ""
  {
  }

  /** A link at the end of a path is kept when final links are not followed; with a slash behind it, it is followed. */
  lemma LastNotFollowed(links: Links, directory: Components, c: string, text: string)
    requires AllPlain(directory) && NoLinks(links, directory, true) && IsPlain(c)
    requires links(directory + [c]) == Link(text)
    ensures var path := Join(directory + [c]);
            && Resolved(links, Anywhere, path, false) == path
            && (EndsWithin(links, path + "/", false) ==>
                  var s := Resolved(links, Anywhere, path + "/", false);
                  Split(s) != directory + [c] && (s == "/" || EndsWithSlash(s)))
  {
    hide Split, Resolve, Render, EndsWithin, EndsWithSlash;
    var all := directory + [c];
    var path := Join(all);
    PushPlain(links, directory, c, false);
    var bare, slash := Place(all, false, 0), Place(all, true, 0);
    Rendered(bare);
    Rendered(slash);
    assert path + "" == path;
    RenderedStart(bare);
    RenderedStart(slash);
    assert [] + all == all;
    CleanWalk(links, all, false, Start(path));
    WithinBudget(links, path + "/", false);
    if EndsWithin(links, path + "/", false) {
      ResultIsClean(links, Anywhere, all, false, Start(path + "/"));
      var q := Resolve(links, Anywhere, all, false, Start(path + "/")).place;
      RenderedStart(q);
      assert all[..|all|] == all;
      SlashKept(q);
    }
  }

  /** A trailing slash is asked for by the path itself or by the text of a link, by nothing else. */
  lemma {:induction false} NoSlashAdded(links: Links, pending: Components, follow: bool, p: Place)
    requires forall path :: links(path).Link? ==> !EndsWithSlash(links(path).text)
    ensures var o := Resolve(links, Anywhere, pending, follow, p);
            o.Done? ==> o.place.directory == p.directory
    decreases if p.links <= MAX_LINKS then MAX_LINKS - p.links else 0, |pending|
  {
    hide EndsWithSlash;
    if pending != [] {
      var c, rest := pending[0], pending[1..];
      if c == "." {
        NoSlashAdded(links, rest, follow, p);
      } else if c == ".." {
        NoSlashAdded(links, rest, follow, p.(resolved := Up(p.resolved)));
      } else {
        match Step(links, c, rest, follow, p)
        case TooMany =>
        case Push(next) => NoSlashAdded(links, rest, follow, next);
        case Expand(next, front) => NoSlashAdded(links, front + rest, follow, next);
      }
    }
  }

  /** A slash behind a path other than the root asks for a directory. */
  lemma SlashAsks(path: string)
    ensures Start(path + "/").directory <==> path != ""
    ensures path != "" && path[|path| - 1] != '/' ==> !Start(path).directory
  {
  }

  lemma SlashKept(p: Place)
    requires p.directory
    ensures Render(p) == "/" || EndsWithSlash(Render(p))
  {
  }

  // ----- Permission

  /** The directories whose search permission a walk asks for, in order, if all of them are granted. */
  function Visited(links: Links, pending: Components, follow: bool, p: Place): seq<Components>
    decreases if p.links <= MAX_LINKS then MAX_LINKS - p.links else 0, |pending|
  {
    if pending == [] then []
    else [p.resolved] +
         if pending[0] == "." then Visited(links, pending[1..], follow, p)
         else if pending[0] == ".." then Visited(links, pending[1..], follow, p.(resolved := Up(p.resolved)))
         else match Step(links, pending[0], pending[1..], follow, p)
              case TooMany => []
              case Push(next) => Visited(links, pending[1..], follow, next)
              case Expand(next, front) => Visited(links, front + pending[1..], follow, next)
  }

  /** A walk with permissions ends like one without, unless some directory it comes through is refused. */
  lemma {:induction false} PermitDecides(links: Links, permit: Permit, pending: Components, follow: bool, p: Place)
    ensures Resolve(links, permit, pending, follow, p) ==
            if forall d | d in Visited(links, pending, follow, p) :: permit(d)
            then Resolve(links, Anywhere, pending, follow, p) else Forbidden
    decreases if p.links <= MAX_LINKS then MAX_LINKS - p.links else 0, |pending|
  {
    if pending != [] {
      var c, rest := pending[0], pending[1..];
      var tail := Visited(links, pending, follow, p)[1..];
      assert forall d :: d in Visited(links, pending, follow, p) <==> d == p.resolved || d in tail;
      if c == "." {
        PermitDecides(links, permit, rest, follow, p);
      } else if c == ".." {
        PermitDecides(links, permit, rest, follow, p.(resolved := Up(p.resolved)));
      } else {
        match Step(links, c, rest, follow, p)
        case TooMany =>
        case Push(next) => PermitDecides(links, permit, rest, follow, next);
        case Expand(next, front) => PermitDecides(links, permit, front + rest, follow, next);
      }
    }
  }

  /** Along names that are no links, exactly the directories on the way must be searchable. */
  lemma {:induction false} CleanPermitted(links: Links, permit: Permit, names: Components, follow: bool, p: Place)
    requires AllPlain(names) && NoLinks(links, p.resolved + names, true)
    ensures Resolve(links, permit, names, follow, p) ==
            if forall k | 0 <= k < |names| :: permit(p.resolved + names[..k])
            then Done(p.(resolved := p.resolved + names)) else Forbidden
    decreases |names|
  {
    if names == [] {
      assert p.resolved + names == p.resolved;
    } else {
      var c, rest := names[0], names[1..];
      var next, all := p.resolved + [c], p.resolved + names;
      assert IsPlain(c);
      assert all[..|next|] == next && next + rest == all;
      CleanPermitted(links, permit, rest, follow, p.(resolved := next));
      assert p.resolved + names[..0] == p.resolved;
      assert forall k | 0 <= k < |rest| :: next + rest[..k] == p.resolved + names[..k + 1];
      assert forall k | 0 < k < |names| :: p.resolved + names[..k] == next + rest[..k - 1];
    }
  }

  // ----- The loop itself

  lemma NothingPending(links: Links, permit: Permit, follow: bool, p: Place)
    ensures Resolve(links, permit, [], follow, p) == Done(p)
  {
  }

  /** One turn of the loop. */
  lemma Unfolded(links: Links, permit: Permit, component: string, rest: Components, follow: bool, p: Place)
    ensures Resolve(links, permit, [component] + rest, follow, p) ==
            if !permit(p.resolved) then Forbidden
            else if component == "." then Resolve(links, permit, rest, follow, p)
            else if component == ".." then Resolve(links, permit, rest, follow, p.(resolved := Up(p.resolved)))
            else var turn := Step(links, component, rest, follow, p);
                 if turn.TooMany? then OverBudget
                 else Resolve(links, permit, if turn.Push? then rest else turn.front + rest, follow, turn.place)
  {
    hide Step, Up;
    assert ([component] + rest)[1..] == rest;
  }

  method ResolveVirtualSymlinks(links: Links, permit: Permit, path: string, follow: bool) returns (result: string)
    ensures result == Resolved(links, permit, path, follow)
  {
    hide Split, Join, EndsWithSlash, IsAbsolute, Resolve;
    var directory := |path| > 1 && EndsWithSlash(path);
    var pending := SplitPath(path);
    var resolved: Components := [];
    var depth := 0;
    while pending != []
      invariant depth <= MAX_LINKS
      invariant Resolve(links, permit, Split(path), follow, Start(path))
             == Resolve(links, permit, pending, follow, Place(resolved, directory, depth))
      decreases MAX_LINKS - depth, |pending|
    {
      var component := pending[0];
      assert pending == [component] + pending[1..];
      Unfolded(links, permit, component, pending[1..], follow, Place(resolved, directory, depth));
      pending := pending[1..];
      if !permit(resolved) { return ""; }
      if component == "." { continue; }
      if component == ".." {
        if resolved != [] { resolved := resolved[..|resolved| - 1]; }
        continue;
      }
      var candidate := resolved + [component];
      if pending == [] && !follow && !directory {
        resolved := candidate;
        continue;
      }
      var target := links(candidate);
      if target.NotLink? {
        resolved := candidate;
        continue;
      }
      depth := depth + 1;
      if depth > MAX_LINKS { return path; }
      if EndsWithSlash(target.text) { directory := true; }
      if IsAbsolute(target.text) { resolved := []; }
      var front := SplitPath(target.text);
      pending := front + pending;
    }
    NothingPending(links, permit, follow, Place(resolved, directory, depth));
    if resolved == [] { return "/"; }
    result := Join(resolved);
    if directory { result := result + "/"; } else { assert result + "" == result; }
  }
}
