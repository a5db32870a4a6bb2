/**
  The handshake around a newborn tracee: its first stop and its parent's clone event come
  in either order, and it may only be resumed once it has inherited its parent's state.
 */
module Newborns {
  import opened Types
  import Credentials

  type Pid = int
  type State = Credentials.Identity

  // ----- The tracer

  /** What the tracer keeps: the states, the stops that came too early, and those whose time has come. */
  datatype Books = Books(states: map<Pid, State>, pending: set<Pid>, ready: seq<Pid>) {
    /** A tracee without a state would be given this one. */
    function StateOf(p: Pid): State {
      if p in states then states[p]
      else Credentials.Identity(Credentials.Ids(0, 0, 0, 0), Credentials.Ids(0, 0, 0, 0), [], false)
    }
  }

  function AfterCloneEvent(b: Books, parent: Pid, child: Pid): Books {
    Books(b.states[child := b.StateOf(parent)], b.pending - {child},
          if child in b.pending then b.ready + [child] else b.ready)
  }

  // ----- The kernel and the tracer together

  /**
    Where a tracee is. A newborn has reported its first stop or not, and names its parent until the
    parent's clone event has been handled.
   */
  datatype Phase = Running | AtClone(child: Pid) | Newborn(reported: bool, parent: Option<Pid>)

  /** `inherits` says what each tracee that has not started yet should start with. */
  datatype World = World(books: Books, phases: map<Pid, Phase>, inherits: map<Pid, State>)

  datatype Event =
    | Fork(parent: Pid, child: Pid)
    | CloneReported(parent: Pid)
    | StopReported(child: Pid)
    | ReadyTaken
    | Changed(pid: Pid, state: State)   // a handled call of a running tracee
    | Exited(pid: Pid)

  /** What may happen next. New reports are waited for only when no stop is ready. */
  predicate Can(w: World, e: Event) {
    match e
    case Fork(parent, child) => Is(w, parent, Running) && child !in w.phases
    case CloneReported(parent) => w.books.ready == [] && parent in w.phases && w.phases[parent].AtClone?
    case StopReported(child) =>
      w.books.ready == [] && child in w.phases && w.phases[child].Newborn? && !w.phases[child].reported
    case ReadyTaken => w.books.ready != []
    case Changed(pid, _) => w.books.ready == [] && Is(w, pid, Running)
    case Exited(pid) => w.books.ready == [] && Is(w, pid, Running)
  }

  predicate Inherits(w: World, pid: Pid, state: State) { pid in w.inherits && w.inherits[pid] == state }

  predicate Is(w: World, pid: Pid, phase: Phase) { pid in w.phases && w.phases[pid] == phase }

  /** What holds of each pid: no tracee runs without a state, and a state waits for each that has not started. */
  ghost predicate Kept(w: World, p: Pid) {
    var b := w.books;
    if p !in w.phases then p !in b.states && p !in w.inherits && p !in b.pending && p !in b.ready
    else match w.phases[p]
         case Running => p in b.states && p !in w.inherits && p !in b.pending && p !in b.ready
         case AtClone(c) =>
           && p in b.states && p !in w.inherits && p !in b.pending && p !in b.ready
           && c in w.phases && w.phases[c].Newborn? && w.phases[c].parent == Some(p)
           && c in w.inherits && b.states[p] == w.inherits[c]
         case Newborn(reported, parent) =>
           && p in w.inherits && (p in b.pending <==> reported && parent.Some?) && (p in b.ready <==> reported && parent.None?)
           && (if parent.Some? then p !in b.states && Is(w, parent.value, AtClone(p))
               else p in b.states && b.states[p] == w.inherits[p])
  }

  ghost predicate Distinct(s: seq<Pid>) { forall i, j | 0 <= i < j < |s| :: s[i] != s[j] }

  ghost predicate Ok(w: World) { Distinct(w.books.ready) && forall p :: Kept(w, p) }

  /** A tracee is resumed from its first stop. */
  function Started(w: World, pid: Pid): World {
    w.(phases := w.phases[pid := Running], inherits := w.inherits - {pid})
  }

  function After(w: World, e: Event): World
    requires Can(w, e)
  {
    var b := w.books;
    match e
    case Fork(parent, child) =>
      World(b, w.phases[parent := AtClone(child)][child := Newborn(false, Some(parent))],
            w.inherits[child := b.StateOf(parent)])
    case CloneReported(parent) =>
      var c := w.phases[parent].child;
      World(AfterCloneEvent(b, parent, c),
            w.phases[parent := Running][c := if Is(w, c, Newborn(true, Some(parent))) then Newborn(true, None)
                                             else Newborn(false, None)], w.inherits)
    case StopReported(c) =>
      if c in b.states then Started(w, c)
      else w.(books := b.(pending := b.pending + {c}), phases := w.phases[c := Newborn(true, w.phases[c].parent)])
    case ReadyTaken => Started(w.(books := b.(ready := b.ready[1..])), b.ready[0])
    case Changed(pid, state) => w.(books := b.(states := b.states[pid := state]))
    case Exited(pid) => w.(books := b.(states := b.states - {pid}), phases := w.phases - {pid})
  }

  lemma ReadyRest(s: seq<Pid>)
    requires s != [] && Distinct(s)
    ensures Distinct(s[1..]) && forall p :: p in s[1..] <==> p in s && p != s[0]
  {
    assert forall i | 0 < i < |s| :: s[i] != s[0];
    assert s == [s[0]] + s[1..];
  }

  lemma ReadyGrows(s: seq<Pid>, c: Pid)
    requires Distinct(s) && c !in s
    ensures Distinct(s + [c]) && forall p :: p in s + [c] <==> p in s || p == c
  {
  }

  /** Every event keeps this. */
  lemma EventKeeps(w: World, e: Event)
    requires Ok(w) && Can(w, e)
    ensures Ok(After(w, e))
  {
    match e
    case CloneReported(parent) => CloneKeeps(w, parent);
    case ReadyTaken => StartKeeps(w);
    case _ => OtherKeeps(w, e);
  }

  lemma CloneKeeps(w: World, parent: Pid)
    requires Ok(w) && Can(w, CloneReported(parent))
    ensures Ok(After(w, CloneReported(parent)))
  {
    var next := After(w, CloneReported(parent));
    assert Kept(w, parent);
    var c := w.phases[parent].child;
    assert Kept(w, c);
    ReadyGrows(w.books.ready, c);
    forall p ensures Kept(next, p) {
      assert Kept(w, p);
      if p in w.phases && w.phases[p].AtClone? { assert Kept(w, w.phases[p].child); }
    }
  }

  lemma StartKeeps(w: World)
    requires Ok(w) && Can(w, ReadyTaken)
    ensures Ok(After(w, ReadyTaken))
  {
    var next, c := After(w, ReadyTaken), w.books.ready[0];
    ReadyRest(w.books.ready);
    assert Kept(w, c);
    forall p ensures Kept(next, p) {
      assert Kept(w, p);
    }
  }

  lemma OtherKeeps(w: World, e: Event)
    requires Ok(w) && Can(w, e) && !e.CloneReported? && !e.ReadyTaken?
    ensures Ok(After(w, e))
  {
    var next := After(w, e);
    forall p ensures Kept(next, p) {
      assert Kept(w, p);
      match e
      case Fork(parent, child) => assert Kept(w, parent) && Kept(w, child);
      case StopReported(c) => assert Kept(w, c);
      case Changed(pid, _) => assert Kept(w, pid);
      case Exited(pid) => assert Kept(w, pid);
    }
  }

  /** The session begins with one tracee, running. */
  lemma FirstOk(tracee: Pid, state: State)
    ensures Ok(World(Books(map[tracee := state], {}, []), map[tracee := Running], map[]))
  {
  }

  // ----- Runs

  ghost predicate Run(worlds: seq<World>, events: seq<Event>) {
    && |worlds| == |events| + 1 && Ok(worlds[0]) && worlds[0].inherits == map[]
    && forall i | 0 <= i < |events| ::
         Can(worlds[i], events[i]) && worlds[i + 1] == After(worlds[i], events[i])
  }

  datatype Start = Start(pid: Pid, state: State)

  /** What an event brings into the world: a child, with the state its parent has. */
  function BornBy(w: World, e: Event): multiset<Start> {
    if e.Fork? && e.parent in w.books.states then multiset{Start(e.child, w.books.states[e.parent])} else multiset{}
  }

  /** What an event resumes for the first time, with the state it resumes with. */
  function StartedBy(w: World, e: Event): multiset<Start> {
    if e.ReadyTaken? && w.books.ready != [] && w.books.ready[0] in w.books.states
      then multiset{Start(w.books.ready[0], w.books.states[w.books.ready[0]])}
    else if e.StopReported? && e.child in w.books.states
      then multiset{Start(e.child, w.books.states[e.child])}
    else multiset{}
  }

  function Births(worlds: seq<World>, events: seq<Event>): multiset<Start>
    requires |worlds| >= |events|
  {
    if events == [] then multiset{}
    else Births(worlds, events[..|events| - 1]) + BornBy(worlds[|events| - 1], events[|events| - 1])
  }

  function Starts(worlds: seq<World>, events: seq<Event>): multiset<Start>
    requires |worlds| >= |events|
  {
    if events == [] then multiset{}
    else Starts(worlds, events[..|events| - 1]) + StartedBy(worlds[|events| - 1], events[|events| - 1])
  }

  /** The tracees that have not started yet. */
  ghost function Waiting(inherits: map<Pid, State>): multiset<Start> { multiset(StartsOf(inherits)) }

  ghost function StartsOf(inherits: map<Pid, State>): set<Start> { set p | p in inherits :: Start(p, inherits[p]) }

  lemma WaitingGrows(m: map<Pid, State>, p: Pid, state: State)
    requires p !in m
    ensures Waiting(m[p := state]) == Waiting(m) + multiset{Start(p, state)}
  {
    var all := StartsOf(m[p := state]);
    forall s ensures s in all <==> s in StartsOf(m) + {Start(p, state)} {
      InStarts(m, s);
      InStarts(m[p := state], s);
    }
    InStarts(m, Start(p, state));
    hide StartsOf;
    assert all == StartsOf(m) + {Start(p, state)};
  }

  lemma InStarts(m: map<Pid, State>, s: Start)
    ensures s in StartsOf(m) <==> s.pid in m && m[s.pid] == s.state
  {
  }

  lemma WaitingShrinks(m: map<Pid, State>, p: Pid)
    requires p in m
    ensures Waiting(m) == Waiting(m - {p}) + multiset{Start(p, m[p])}
  {
    assert (m - {p})[p := m[p]] == m;
    WaitingGrows(m - {p}, p, m[p]);
  }

  lemma EventConserves(w: World, e: Event)
    requires Ok(w) && Can(w, e)
    ensures Waiting(w.inherits) + BornBy(w, e) == Waiting(After(w, e).inherits) + StartedBy(w, e)
  {
    hide Waiting;
    match e
    case Fork(parent, child) =>
      assert Kept(w, parent) && Kept(w, child);
      WaitingGrows(w.inherits, child, w.books.states[parent]);
    case CloneReported(parent) =>
    case StopReported(c) =>
      assert Kept(w, c);
      if c in w.books.states { WaitingShrinks(w.inherits, c); }
    case ReadyTaken =>
      assert Kept(w, w.books.ready[0]);
      WaitingShrinks(w.inherits, w.books.ready[0]);
    case _ =>
  }

  /**
    In every run, whichever of a child's first stop and its parent's clone event is reported first, each
    child is resumed for the first time once, with the state its parent had at the fork, except those still waiting.
   */
  lemma {:induction false} EveryBirthStartsOnce(worlds: seq<World>, events: seq<Event>, n: nat)
    requires Run(worlds, events) && n <= |events|
    ensures Ok(worlds[n])
    ensures Births(worlds, events[..n]) == Starts(worlds, events[..n]) + Waiting(worlds[n].inherits)
  {
    hide Waiting, Ok, BornBy, StartedBy, Can;
    if n == 0 {
      NoneWaiting(worlds[0].inherits);
    } else {
      EveryBirthStartsOnce(worlds, events, n - 1);
      EventKeeps(worlds[n - 1], events[n - 1]);
      var w, e := worlds[n - 1], events[n - 1];
      EventConserves(w, e);
      assert events[..n][..n - 1] == events[..n - 1];
      Exchange(Births(worlds, events[..n - 1]), Starts(worlds, events[..n - 1]), Waiting(w.inherits), BornBy(w, e),
               Waiting(worlds[n].inherits), StartedBy(w, e));
    }
  }

  lemma Exchange(births: multiset<Start>, starts: multiset<Start>, was: multiset<Start>, born: multiset<Start>,
                 now: multiset<Start>, started: multiset<Start>)
    requires births == starts + was && was + born == now + started
    ensures births + born == (starts + started) + now
  {
    assert births + born == starts + (was + born) == starts + (now + started) == (starts + started) + now;
  }

  lemma NoneWaiting(m: map<Pid, State>)
    requires m == map[]
    ensures Waiting(m) == multiset{}
  {
    assert StartsOf(m) == {};
  }

  /** Nobody waits for ever: while a tracee has not started, some report or some ready stop is due. */
  lemma WaitingIsServed(w: World, c: Pid)
    requires Ok(w) && c in w.inherits
    ensures Can(w, ReadyTaken) || Can(w, StopReported(c))
            || exists parent :: Is(w, parent, AtClone(c)) && Can(w, CloneReported(parent))
  {
    assert Kept(w, c);
    if w.phases[c].parent.Some? { assert Is(w, w.phases[c].parent.value, AtClone(c)); }
  }

  // ----- The tracer's loop

  class Tracer {
    var states: map<Pid, State>
    var pendingChildStops: set<Pid>
    var readyStops: seq<Pid>

    constructor (tracee: Pid, state: State)
      ensures Now() == Books(map[tracee := state], {}, [])
    {
      states, pendingChildStops, readyStops := map[tracee := state], {}, [];
    }

    function Now(): Books
      reads this
    {
      Books(states, pendingChildStops, readyStops)
    }

    /**
      The head of the loop. A stop that is ready goes before what waitpid has to report: it is a held first
      stop, and its tracee starts with the state it is to inherit. Otherwise none is due.
     */
    method Take(waited: Pid, ghost w: World) returns (pid: Pid, again: bool)
      requires Ok(w) && Now() == w.books
      modifies this
      ensures again <==> Can(w, ReadyTaken)
      ensures again ==>
                && Now() == After(w, ReadyTaken).books && Is(w, pid, Newborn(true, None))
                && Is(After(w, ReadyTaken), pid, Running) && pid in states && Inherits(w, pid, states[pid])
      ensures !again ==> pid == waited && Now() == w.books
    {
      if readyStops == [] { return waited, false; }
      assert Kept(w, readyStops[0]);
      pid, again := readyStops[0], true;
      readyStops := readyStops[1..];
    }

    /** A reported first stop: its tracee is resumed exactly if it runs from then on, and else put aside. */
    method OnStop(pid: Pid, ghost w: World) returns (resume: bool)
      requires Ok(w) && Now() == w.books && Can(w, StopReported(pid))
      modifies this
      ensures Now() == After(w, StopReported(pid)).books
      ensures resume <==> Is(After(w, StopReported(pid)), pid, Running)
      ensures resume ==> pid in states && Inherits(w, pid, states[pid])
    {
      assert Kept(w, pid);
      if pid !in states {
        pendingChildStops := pendingChildStops + {pid};
        return false;
      }
      return true;
    }

    /** A fork, vfork or clone event of `parent`. */
    method OnCloneEvent(parent: Pid, child: Pid, ghost w: World)
      requires Ok(w) && Now() == w.books && Can(w, CloneReported(parent)) && w.phases[parent] == AtClone(child)
      modifies this
      ensures Now() == After(w, CloneReported(parent)).books
      ensures child in states && Inherits(w, child, states[child])
    {
      assert Kept(w, parent) && Kept(w, child);
      states := states[child := states[parent]];
      if child in pendingChildStops {
        readyStops := readyStops + [child];
        pendingChildStops := pendingChildStops - {child};
      }
    }

    /** One event of a session, whose report, if it is one, names the tracees concerned. */
    method Serve(e: Event, w: World)
      requires Ok(w) && Now() == w.books && Can(w, e)
      modifies this
      ensures Now() == After(w, e).books
    {
      match e {
        case Fork(_, _) =>
        case CloneReported(parent) => OnCloneEvent(parent, w.phases[parent].child, w);
        case StopReported(child) => var _ := OnStop(child, w);
        case ReadyTaken => var _, _ := Take(0, w);
        case Changed(pid, state) => states := states[pid := state];
        case Exited(pid) => states := states - {pid};
      }
    }

    /**
      Serves events as long as they can happen; what the tracer keeps is what the run says, so that
      EveryBirthStartsOnce speaks of it.
     */
    method ServeAll(first: World, events: seq<Event>) returns (n: nat, worlds: seq<World>)
      requires Ok(first) && first.inherits == map[] && Now() == first.books
      modifies this
      ensures n <= |events| && Run(worlds, events[..n]) && worlds[0] == first && Now() == worlds[n].books
      ensures n < |events| ==> !Can(worlds[n], events[n])
      ensures Births(worlds, events[..n]) == Starts(worlds, events[..n]) + Waiting(worlds[n].inherits)
    {
      hide Ok, Can, After, Births, Starts, Waiting;
      n, worlds := 0, [first];
      while n < |events| && Can(worlds[n], events[n])
        invariant n <= |events| && |worlds| == n + 1 && worlds[0] == first
        invariant Ok(worlds[n]) && Now() == worlds[n].books
        invariant forall i | 0 <= i < n :: Can(worlds[i], events[i]) && worlds[i + 1] == After(worlds[i], events[i])
      {
        Serve(events[n], worlds[n]);
        EventKeeps(worlds[n], events[n]);
        worlds := worlds + [After(worlds[n], events[n])];
        n := n + 1;
      }
      assert events[..n][..n] == events[..n];
      EveryBirthStartsOnce(worlds, events[..n], n);
    }
  }
}
