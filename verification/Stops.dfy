/**
  The stops of one traced task around its traced system calls: which stop gets the
  entry handling, which the exit handling, and when a call that another filter
  trapped is executed again.
 */
module Stops {
  import opened Types

  const GETPID: int := 172

  datatype Retry = NoRetry | AwaitingEntry | InFlight | Exited

  /** The fields of a tracee's state that the stop loop uses. */
  datatype State = State(
    expectEntry: bool, retry: Retry, entryPc: uint64, retriedNumber: int, emulated: Option<uint64>)

  const INITIAL := State(true, NoRetry, 0, -1, None)

  /** A stop as the tracer classifies it; the direction of a syscall stop is known. */
  datatype Stop =
    | Seccomp(pc: uint64) | Entry(pc: uint64) | Exit
    | Sigsys(number: int)   // of a traced call, trapped by another seccomp filter
    | Other                 // any signal or event that is not a syscall's

  /** What the entry handling decides: let a call through, under some number, or answer it. */
  datatype Decision = Pass(number: int) | Emulate(value: uint64)

  /** The number the kernel then executes; an answered call is turned into getpid. */
  function Executed(d: Decision): int {
    match d
    case Pass(number) => number
    case Emulate(_) => GETPID
  }

  function Answer(d: Decision): Option<uint64> {
    match d
    case Pass(_) => None
    case Emulate(value) => Some(value)
  }

  /** What the tracer did at a stop. ExitDone carries the emulated result it wrote, if any. */
  datatype Act = EntryDone | ExitDone(result: Option<uint64>) | Retried | GaveUp | Passed

  /** One turn of the stop loop. */
  function Handle(t: State, stop: Stop, d: Decision): (State, Act) {
    var exited := t.retry.Exited?;
    var u := if exited then t.(retry := NoRetry) else t;
    match stop
    case Other => (u, Passed)
    case Sigsys(number) =>
      if exited && number == t.retriedNumber then (u, GaveUp)
      else (u.(expectEntry := true, retry := AwaitingEntry), Retried)
    case Exit =>
      (State(true, if u.retry.InFlight? then Retry.Exited else u.retry, u.entryPc, u.retriedNumber, None),
       ExitDone(u.emulated))
    case Seccomp(pc) => HandleEntry(u, pc, d)
    case Entry(pc) => HandleEntry(u, pc, d)
  }

  function HandleEntry(u: State, pc: uint64, d: Decision): (State, Act) {
    if !u.expectEntry && pc == u.entryPc then (u, Passed)
    else
      var flies := u.retry.AwaitingEntry?;
      (State(false, if flies then InFlight else NoRetry, pc,
             if flies then Executed(d) else u.retriedNumber,
             if d.Emulate? then Some(d.value) else u.emulated),
       EntryDone)
  }

  /** ResumeTracee: whether the next syscall stop is asked for, or only our filter's. */
  predicate StopsAtSyscall(t: State) { !t.expectEntry || t.retry.AwaitingEntry? }

  class Tracee {
    var expectEntry: bool
    var retry: Retry
    var entryPc: uint64
    var retriedNumber: int
    var emulated: Option<uint64>

    constructor ()
      ensures Now() == INITIAL
    {
      expectEntry, retry, entryPc, retriedNumber, emulated := true, NoRetry, 0, -1, None;
    }

    function Now(): State
      reads this
    {
      State(expectEntry, retry, entryPc, retriedNumber, emulated)
    }

    /** The part of the stop loop that follows the wait for a stop of this tracee. */
    method OnStop(stop: Stop, d: Decision) returns (act: Act)
      modifies this
      ensures (Now(), act) == Handle(old(Now()), stop, d)
    {
      var retriedSyscallExited := retry == Retry.Exited;
      if retriedSyscallExited { retry := NoRetry; }
      if stop.Other? { return Passed; }
      if stop.Sigsys? {
        if retriedSyscallExited && stop.number == retriedNumber { return GaveUp; }
        expectEntry, retry := true, AwaitingEntry;
        return Retried;
      }
      var isEntry := !stop.Exit?;
      if isEntry && !expectEntry && stop.pc == entryPc { return Passed; }
      if isEntry {
        entryPc := stop.pc;
        retry := if retry == AwaitingEntry then InFlight else NoRetry;
      } else if retry == InFlight {
        retry := Retry.Exited;
      }
      if emulated.Some? && !isEntry {
        act := ExitDone(emulated);
        emulated, expectEntry := None, true;
        return;
      }
      if isEntry && d.Emulate? { emulated := Some(d.value); }
      if isEntry && retry == InFlight { retriedNumber := Executed(d); }
      expectEntry := !isEntry;
      act := if isEntry then EntryDone else ExitDone(None);
    }
  }

  // ----- The kernel's side

  /** The sequences of stops that an execution of a traced call may bring. */
  datatype Shape =
    | Plain          // our filter, exit
    | EntryFirst     // a syscall-entry stop, our filter, exit
    | EntryLast      // our filter, a syscall-entry stop (older kernels), exit
    | EntryOnly      // a syscall-entry stop, exit: the new number is not one our filter traces
    | TrappedAgain   // a syscall-entry stop, exit, and at once the SIGSYS of another filter
    | Trapped        // only the SIGSYS of another filter

  function StopsOf(shape: Shape, pc: uint64, number: int, d: Decision): seq<Stop> {
    match shape
    case Plain => [Seccomp(pc), Exit]
    case EntryFirst => [Entry(pc), Seccomp(pc), Exit]
    case EntryLast => [Seccomp(pc), Entry(pc), Exit]
    case EntryOnly => [Entry(pc), Exit]
    case TrappedAgain => [Entry(pc), Exit, Sigsys(Executed(d))]
    case Trapped => [Sigsys(number)]
  }

  /**
    Which shapes the kernel can produce, by whether syscall stops were asked for. From version 4.8 on
    it reports the entry of a call before any filter sees it, so a call whose stops were asked for is not
    trapped unannounced; before, it was.
   */
  predicate Possible(shape: Shape, stopsAtSyscall: bool) {
    if stopsAtSyscall then shape in {EntryFirst, EntryLast, EntryOnly, TrappedAgain}
    else shape in {Plain, EntryLast, Trapped}
  }

  /** The tracer's state after a sequence of stops, and what it did, passed-over stops aside. */
  function HandleAll(t: State, stops: seq<Stop>, d: Decision): (State, seq<Act>)
    decreases |stops|
  {
    if stops == [] then (t, [])
    else
      var (u, act) := Handle(t, stops[0], d);
      var (v, acts) := HandleAll(u, stops[1..], d);
      (v, (if act.Passed? then [] else [act]) + acts)
  }

  /** A call of the tracee: `first` is how its execution goes, `second` how a repeated execution would. */
  datatype Call = Call(pc: uint64, number: int, decision: Decision, first: Shape, second: Shape)

  /** The tracer's state and acts after the first execution of a call. */
  function HandleFirst(t: State, c: Call): (State, seq<Act>) {
    HandleAll(t, StopsOf(c.first, c.pc, c.number, c.decision), c.decision)
  }

  function HandleSecond(t: State, c: Call): (State, seq<Act>) {
    HandleAll(t, StopsOf(c.second, c.pc, c.number, c.decision), c.decision)
  }

  /** Both executions are such as the kernel produces under the stops that the tracer asks for. */
  predicate CallOk(t: State, c: Call) {
    && Possible(c.first, StopsAtSyscall(t))
    && (HandleFirst(t, c).1 == [Retried] ==> Possible(c.second, StopsAtSyscall(HandleFirst(t, c).0)))
  }

  /** The whole life of a call, repeated if the tracer has it repeated. */
  function HandleCall(t: State, c: Call): (State, seq<Act>) {
    var (u, acts) := HandleFirst(t, c);
    if acts == [Retried] then
      var (v, more) := HandleSecond(u, c);
      (v, acts + more)
    else (u, acts)
  }

  /** Between calls: nothing is owed to the tracee, and no repetition is under way. */
  predicate Quiet(t: State) {
    t.expectEntry && t.emulated.None? && (t.retry.NoRetry? || t.retry.Exited?)
  }

  /** Once in, once out with the right answer, after at most one repetition. */
  predicate HandledOnce(acts: seq<Act>, d: Decision) {
    var once := [EntryDone, ExitDone(Answer(d))];
    acts in {once, [Retried] + once, [Retried] + once + [GaveUp]}
  }

  lemma TwoStops(t: State, a: Stop, b: Stop, d: Decision)
    ensures var (u, x) := Handle(t, a, d);
            var (v, y) := Handle(u, b, d);
            HandleAll(t, [a, b], d) == (v, (if x.Passed? then [] else [x]) + (if y.Passed? then [] else [y]))
  {
    assert [a, b][1..] == [b];
    OneStop(Handle(t, a, d).0, b, d);
  }

  lemma OneStop(t: State, a: Stop, d: Decision)
    ensures var (u, x) := Handle(t, a, d);
            HandleAll(t, [a], d) == (u, if x.Passed? then [] else [x])
  {
    var (u, x) := Handle(t, a, d);
    assert [a][1..] == [] && HandleAll(u, [], d) == (u, []);
    assert (if x.Passed? then [] else [x]) + [] == if x.Passed? then [] else [x];
  }

  lemma ThreeStops(t: State, a: Stop, b: Stop, c: Stop, d: Decision)
    ensures var (u, x) := Handle(t, a, d);
            var (v, acts) := HandleAll(u, [b, c], d);
            HandleAll(t, [a, b, c], d) == (v, (if x.Passed? then [] else [x]) + acts)
  {
    assert [a, b, c][1..] == [b, c];
  }

  /** A trapped call that the tracer takes for the repetition of the call before it. */
  predicate Mistaken(t: State, c: Call) {
    t.retry.Exited? && c.first.Trapped? && c.number == t.retriedNumber
  }

  /** An execution without syscall stops asked for: handled once, or trapped and to be repeated, or given up. */
  lemma FirstExecution(t: State, c: Call)
    requires Quiet(t) && Possible(c.first, StopsAtSyscall(t))
    ensures var (u, acts) := HandleFirst(t, c);
            if Mistaken(t, c) then Quiet(u) && u.retry.NoRetry? && acts == [GaveUp]
            else if c.first.Trapped? then u.expectEntry && u.emulated.None? && u.retry.AwaitingEntry? && acts == [Retried]
            else Quiet(u) && u.retry.NoRetry? && acts == [EntryDone, ExitDone(Answer(c.decision))]
  {
    var d := c.decision;
    match c.first
    case Plain => TwoStops(t, Seccomp(c.pc), Exit, d);
    case EntryLast =>
      ThreeStops(t, Seccomp(c.pc), Entry(c.pc), Exit, d);
      TwoStops(Handle(t, Seccomp(c.pc), d).0, Entry(c.pc), Exit, d);
    case Trapped => OneStop(t, Sigsys(c.number), d);
  }

  /** A repeated execution is handled once, and the number it ran under is kept unless it is trapped again. */
  lemma SecondExecution(t: State, c: Call)
    requires t.expectEntry && t.emulated.None? && t.retry.AwaitingEntry? && Possible(c.second, StopsAtSyscall(t))
    ensures var (u, acts) := HandleSecond(t, c);
            var once := [EntryDone, ExitDone(Answer(c.decision))];
            if c.second.TrappedAgain? then Quiet(u) && u.retry.NoRetry? && acts == once + [GaveUp]
            else Quiet(u) && u.retry.Exited? && u.retriedNumber == Executed(c.decision) && acts == once
  {
    var d := c.decision;
    match c.second
    case EntryFirst =>
      ThreeStops(t, Entry(c.pc), Seccomp(c.pc), Exit, d);
      TwoStops(Handle(t, Entry(c.pc), d).0, Seccomp(c.pc), Exit, d);
    case EntryLast =>
      ThreeStops(t, Seccomp(c.pc), Entry(c.pc), Exit, d);
      TwoStops(Handle(t, Seccomp(c.pc), d).0, Entry(c.pc), Exit, d);
    case EntryOnly => TwoStops(t, Entry(c.pc), Exit, d);
    case TrappedAgain =>
      ThreeStops(t, Entry(c.pc), Exit, Sigsys(Executed(d)), d);
      TwoStops(Handle(t, Entry(c.pc), d).0, Exit, Sigsys(Executed(d)), d);
  }

  /** The tracer waits for a call, or has it repeated. */
  predicate Waits(t: State) { Quiet(t) || (t.expectEntry && t.emulated.None? && t.retry.AwaitingEntry?) }

  lemma NoStop(t: State, d: Decision)
    ensures HandleAll(t, [], d) == (t, [])
  {
  }

  /**
    The stops at the entry and the exit of a call come only when they are asked for, and the tracer asks for
    them: between the stops of an execution always, except before a trap, and afterwards only to repeat it.
   */
  lemma StopsAreAskedFor(t: State, shape: Shape, pc: uint64, number: int, d: Decision, k: nat)
    requires Waits(t) && Possible(shape, StopsAtSyscall(t)) && k <= |StopsOf(shape, pc, number, d)|
    ensures var stops := StopsOf(shape, pc, number, d);
            var (u, acts) := HandleAll(t, stops[..k], d);
            && (k < |stops| && (stops[k].Entry? || stops[k].Exit?) ==> StopsAtSyscall(u))
            && (0 < k < |stops| ==> (StopsAtSyscall(u) <==> !stops[k].Sigsys?))
            && (k == |stops| ==> (StopsAtSyscall(u) <==> acts == [Retried]))
  {
    var stops := StopsOf(shape, pc, number, d);
    hide HandleAll;
    NoStop(t, d);
    OneStop(t, stops[0], d);
    if |stops| > 1 { TwoStops(t, stops[0], stops[1], d); }
    if |stops| > 2 {
      ThreeStops(t, stops[0], stops[1], stops[2], d);
      TwoStops(Handle(t, stops[0], d).0, stops[1], stops[2], d);
    }
    assert stops[..k] == if k == 0 then [] else if k == 1 then [stops[0]] else if k == 2 then [stops[0], stops[1]]
                         else [stops[0], stops[1], stops[2]];
  }

  /** A call from any state between calls: handled once if and only if it is not mistaken for a repetition. */
  lemma CallHandledOnce(t: State, c: Call)
    requires Quiet(t) && CallOk(t, c)
    ensures var (u, acts) := HandleCall(t, c);
            && Quiet(u)
            && (HandledOnce(acts, c.decision) <==> !Mistaken(t, c))
            && (Mistaken(t, c) ==> acts == [GaveUp])
            && (u.retry.Exited? <==> c.first.Trapped? && !Mistaken(t, c) && !c.second.TrappedAgain?)
            && (u.retry.Exited? ==> u.retriedNumber == Executed(c.decision))
  {
    hide HandleAll;
    FirstExecution(t, c);
    var (u, acts) := HandleFirst(t, c);
    if acts == [Retried] {
      SecondExecution(u, c);
      var once := [EntryDone, ExitDone(Answer(c.decision))];
      assert [Retried] + (once + [GaveUp]) == [Retried] + once + [GaveUp];
    }
  }

  // ----- Runs

  /** What happens to a tracee: a traced call, or a stop that has nothing to do with calls. */
  datatype Event = Called(call: Call) | Signalled

  function HandleEvent(t: State, e: Event): State {
    match e
    case Called(c) => HandleCall(t, c).0
    case Signalled => Handle(t, Other, Pass(0)).0
  }

  /** The tracer's state after a run of events. */
  function HandleRun(run: seq<Event>): State {
    if run == [] then INITIAL else HandleEvent(HandleRun(run[..|run| - 1]), run[|run| - 1])
  }

  /** Every call of the run goes as the kernel can make it go. */
  ghost predicate RunOk(run: seq<Event>) {
    forall i | 0 <= i < |run| && run[i].Called? :: CallOk(HandleRun(run[..i]), run[i].call)
  }

  /**
    Call `i` is trapped by another filter right after a call that was repeated, exited and was not trapped
    again, and has the number which that one was executed under.
   */
  predicate GivenUp(run: seq<Event>, i: nat)
    requires i < |run|
    decreases i
  {
    && run[i].Called? && run[i].call.first.Trapped?
    && i > 0 && run[i - 1].Called? && run[i - 1].call.first.Trapped? && !GivenUp(run, i - 1)
    && !run[i - 1].call.second.TrappedAgain?
    && run[i].call.number == Executed(run[i - 1].call.decision)
  }

  lemma {:induction false} RunStaysQuiet(run: seq<Event>, i: nat)
    requires RunOk(run) && i <= |run|
    ensures var t := HandleRun(run[..i]);
            && Quiet(t)
            && (i < |run| && run[i].Called? ==> (Mistaken(t, run[i].call) <==> GivenUp(run, i)))
  {
    hide HandleCall, CallOk;
    if i > 0 {
      RunStaysQuiet(run, i - 1);
      assert run[..i][..i - 1] == run[..i - 1];
      if run[i - 1].Called? { CallHandledOnce(HandleRun(run[..i - 1]), run[i - 1].call); }
    }
  }

  /**
    In every run, a call gets its entry handling once and its exit handling once, with its own answer and
    after at most one repetition, if and only if it is not given up.
   */
  lemma EveryCallHandledOnce(run: seq<Event>, i: nat)
    requires RunOk(run) && i < |run| && run[i].Called?
    ensures HandledOnce(HandleCall(HandleRun(run[..i]), run[i].call).1, run[i].call.decision) <==> !GivenUp(run, i)
    ensures GivenUp(run, i) ==> HandleCall(HandleRun(run[..i]), run[i].call).1 == [GaveUp]
  {
    hide HandleCall, HandledOnce, Mistaken, CallOk;
    RunStaysQuiet(run, i);
    CallHandledOnce(HandleRun(run[..i]), run[i].call);
  }

  /** The same call made twice in a row, trapped both times: the second is given up without having been handled. */
  lemma SecondCallGivenUp(pc: uint64)
    ensures var c := Called(Call(pc, 56, Pass(56), Trapped, EntryFirst));
            RunOk([c, c]) && GivenUp([c, c], 1)
            && HandleCall(HandleRun([c]), c.call).1 == [GaveUp]
            && !HandledOnce(HandleCall(HandleRun([c]), c.call).1, Pass(56))
  {
    var call := Call(pc, 56, Pass(56), Trapped, EntryFirst);
    var c := Called(call);
    FirstExecution(INITIAL, call);
    hide HandleAll;
    assert CallOk(INITIAL, call);
    CallHandledOnce(INITIAL, call);
    var t := HandleCall(INITIAL, call).0;
    assert [c][..0] == [] && [c, c][..1] == [c] && [c, c][..0] == [];
    assert HandleRun([c]) == t;
    FirstExecution(t, call);
    assert CallOk(t, call);
    CallHandledOnce(t, call);
  }

  // ----- Repetitions that are trapped unannounced

  /**
    A repeated execution, of any shape that asking for syscall stops allows or trapped unannounced as by kernels
    before 4.8, is repeated once more if and only if its first stop is the trap.
   */
  lemma RepeatedAgainExactly(t: State, c: Call)
    requires t.expectEntry && t.emulated.None? && t.retry.AwaitingEntry?
    requires Possible(c.second, true) || c.second.Trapped?
    ensures HandleSecond(t, c).1 == [Retried] <==> StopsOf(c.second, c.pc, c.number, c.decision)[0].Sigsys?
    ensures Retried in HandleSecond(t, c).1 <==> c.second.Trapped?
    ensures c.second.Trapped? ==> HandleSecond(t, c).0 == t
  {
    if c.second.Trapped? {
      OneStop(t, Sigsys(c.number), c.decision);
    } else {
      SecondExecution(t, c);
    }
  }

  /** On such kernels there is no bound: a call that is trapped unannounced each time is repeated each time. */
  lemma {:induction false} UnannouncedTrapRepeats(t: State, number: int, d: Decision, n: nat)
    requires t.expectEntry && t.retry.AwaitingEntry?
    ensures var (u, acts) := HandleAll(t, seq(n, _ => Sigsys(number)), d);
            u == t && acts == seq(n, _ => Retried)
  {
    var stops := seq(n, _ => Sigsys(number));
    if n > 0 {
      UnannouncedTrapRepeats(t, number, d, n - 1);
      assert stops[0] == Sigsys(number) && stops[1..] == seq(n - 1, _ => Sigsys(number));
      assert [Retried] + seq(n - 1, _ => Retried) == seq(n, _ => Retried);
    }
  }
}
