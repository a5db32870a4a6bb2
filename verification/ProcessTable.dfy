/**
  The process table of the shared mapping: which identity each traced pid runs
  under. A forgotten process leaves a tombstone, so that the probe chains that run
  through its slot survive.
 */
module ProcessTable {
  import opened Types
  import opened Probing

  type int32 = x: int | -0x8000_0000 <= x < 0x8000_0000
  type Pid = p: int32 | p > 0 witness 1

  const PROCESSES: nat := 16384

  datatype ProcessOwner = ProcessOwner(
    pid: int32, realUid: uint32, effectiveUid: uint32,
    realGid: uint32, effectiveGid: uint32, startTime: uint64)

  const EMPTY_PROCESS := ProcessOwner(0, 1000, 1000, 1000, 1000, 0)

  type Cell = Slot<Pid, ProcessOwner>
  type Identities = map<Pid, ProcessOwner>

  function Home(pid: Pid): (home: nat)
    ensures home < PROCESSES
  {
    pid % PROCESSES
  }

  ghost const HOME: Pid -> nat := (p: Pid) => Home(p)

  function CellOf(slot: ProcessOwner): Cell {
    if slot.pid == 0 then Vacant else if slot.pid < 0 then Tombstone else Live(slot.pid, slot)
  }

  function View(slots: seq<ProcessOwner>): (cells: seq<Cell>)
    ensures |cells| == |slots|
  {
    seq(|slots|, i requires 0 <= i < |slots| => CellOf(slots[i]))
  }

  lemma ViewAt(slots: seq<ProcessOwner>, i: nat)
    requires i < |slots|
    ensures View(slots)[i] == CellOf(slots[i])
  {
  }

  ghost predicate Valid(slots: seq<ProcessOwner>) {
    |slots| == PROCESSES && WellFormed(View(slots), HOME)
  }

  ghost function Registered(slots: seq<ProcessOwner>): Identities
    requires Valid(slots)
  {
    Contents(View(slots))
  }

  /** No vacant slot and no slot of `pid` among the first `d` of its chain. */
  ghost predicate Passed(cells: seq<Cell>, pid: Pid, d: nat)
    requires |cells| == PROCESSES && d <= PROCESSES
  {
    forall j | 0 <= j < d :: !Stops(cells[At(HOME(pid), j, PROCESSES)], pid)
  }

  /** A chain passed up to a vacant slot, or all the way round, does not hold the pid. */
  lemma NotRegistered(cells: seq<Cell>, pid: Pid, d: nat)
    requires |cells| == PROCESSES && WellFormed(cells, HOME) && d <= PROCESSES && Passed(cells, pid, d)
    requires d < PROCESSES ==> cells[At(HOME(pid), d, PROCESSES)].Vacant?
    ensures pid !in Contents(cells)
    ensures forall i | 0 <= i < PROCESSES && cells[i].Live? :: cells[i].key != pid
  {
    ProbeFinds(cells, HOME, pid);
    assert Stop(cells, HOME(pid), pid, 0) == d;
    forall i | 0 <= i < PROCESSES && cells[i].Live? ensures cells[i].key != pid {
      ContentsAt(cells, i);
    }
  }

  /** A chain passed up to the pid's own slot shows it registered, in that slot only. */
  lemma RegisteredHere(cells: seq<Cell>, pid: Pid, d: nat)
    requires |cells| == PROCESSES && WellFormed(cells, HOME) && d < PROCESSES
    requires var slot := cells[At(HOME(pid), d, PROCESSES)]; slot.Live? && slot.key == pid
    ensures pid in Contents(cells)
    ensures Contents(cells)[pid] == cells[At(HOME(pid), d, PROCESSES)].value
    ensures forall i | 0 <= i < PROCESSES && cells[i].Live? && cells[i].key == pid :: i == At(HOME(pid), d, PROCESSES)
  {
    ContentsAt(cells, At(HOME(pid), d, PROCESSES));
  }

  /** When every slot of a chain is live, every slot of the table is. */
  lemma AllLive(cells: seq<Cell>, pid: Pid)
    requires |cells| == PROCESSES && Distinct(cells)
    requires forall j | 0 <= j < PROCESSES :: cells[At(HOME(pid), j, PROCESSES)].Live?
    ensures |Contents(cells).Keys| == PROCESSES
  {
    forall i | 0 <= i < PROCESSES ensures cells[i].Live? {
      assert cells[At(HOME(pid), Distance(HOME(pid), i, PROCESSES), PROCESSES)].Live?;
    }
    FullMeansNoFreeSlot(cells);
  }

  lemma SomeFree(cells: seq<Cell>, p: nat)
    requires |cells| == PROCESSES && Distinct(cells) && p < PROCESSES && !cells[p].Live?
    ensures |Contents(cells).Keys| < PROCESSES
  {
    FullMeansNoFreeSlot(cells);
  }

  /** The choice RegisterProcess must make, and what writing there does to the map. */
  ghost predicate Choice(slots: seq<ProcessOwner>, pid: Pid, p: nat)
    requires Valid(slots)
  {
    && p < PROCESSES
    && (forall o: ProcessOwner | o.pid == pid ::
          Valid(slots[p := o]) && Registered(slots[p := o]) == Registered(slots)[pid := o])
    && (forall o: ProcessOwner | o.pid == -1 ::
          Valid(slots[p := o]) && Registered(slots[p := o]) == Registered(slots) - {pid})
    && (pid in Registered(slots) || |Registered(slots).Keys| < PROCESSES)
  }

  /** Withdrawing the chosen slot removes the pid and breaks no chain. */
  lemma Withdrawn(cells: seq<Cell>, pid: Pid, p: nat)
    requires |cells| == PROCESSES && WellFormed(cells, HOME) && p < PROCESSES
    requires forall i | 0 <= i < PROCESSES && cells[i].Live? && cells[i].key == pid :: i == p
    requires cells[p].Live? ==> cells[p].key == pid
    ensures var after := cells[p := Tombstone];
            WellFormed(after, HOME) && Contents(after) == Contents(cells) - {pid}
  {
    if cells[p].Live? {
      TombstoneRemoves(cells, HOME, p);
    } else {
      hide HOME;
      TombstoneKeeps(cells, HOME, p);
    }
  }

  lemma Chosen(slots: seq<ProcessOwner>, pid: Pid, d: nat)
    requires Valid(slots) && d < PROCESSES
    requires var cells := View(slots);
             && (forall j | 0 <= j < d :: !cells[At(HOME(pid), j, PROCESSES)].Vacant?)
             && (forall i | 0 <= i < PROCESSES && cells[i].Live? && cells[i].key == pid :: i == At(HOME(pid), d, PROCESSES))
             && (cells[At(HOME(pid), d, PROCESSES)].Live? ==> cells[At(HOME(pid), d, PROCESSES)].key == pid)
    ensures Choice(slots, pid, At(HOME(pid), d, PROCESSES))
  {
    var cells, p := View(slots), At(HOME(pid), d, PROCESSES);
    forall o: ProcessOwner | o.pid == pid
      ensures Valid(slots[p := o]) && Registered(slots[p := o]) == Registered(slots)[pid := o]
    {
      StoreUpdates(cells, HOME, pid, o, d);
      assert View(slots[p := o]) == cells[p := Live(pid, o)];
    }
    forall o: ProcessOwner | o.pid == -1
      ensures Valid(slots[p := o]) && Registered(slots[p := o]) == Registered(slots) - {pid}
    {
      Withdrawn(cells, pid, p);
      assert View(slots[p := o]) == cells[p := Tombstone];
    }
    if cells[p].Live? { ContentsAt(cells, p); } else { SomeFree(cells, p); }
  }

  function Next(index: nat): nat
    requires index < PROCESSES
    ensures Next(index) < PROCESSES
  {
    (index + 1) % PROCESSES
  }

  /** A request to the table; `start` is the start time the kernel reports, 0 for no such process. */
  datatype Request = Register(process: ProcessOwner, start: uint64) | Forget(pid: Pid)

  /** The map after one request, and after a whole run of them. */
  function Answer(m: Identities, r: Request): Identities {
    match r
    case Forget(pid) => m - {pid}
    case Register(process, start) =>
      if start == 0 || process.pid <= 0 || (process.pid !in m && |m.Keys| >= PROCESSES) then m
      else m[process.pid := process.(startTime := start)]
  }

  function AnswerAll(m: Identities, run: seq<Request>): Identities {
    if run == [] then m else Answer(AnswerAll(m, run[..|run| - 1]), run[|run| - 1])
  }

  predicate Names(r: Request, pid: Pid) {
    match r
    case Forget(p) => p == pid
    case Register(process, _) => process.pid == pid
  }

  /** Request `i` is the last one in the run that took effect for `pid`, and it registered it. */
  ghost predicate LastRegisters(run: seq<Request>, pid: Pid, i: nat) {
    && i < |run| && run[i].Register? && run[i].process.pid == pid && run[i].start != 0
    && (pid in AnswerAll(map[], run[..i]) || |AnswerAll(map[], run[..i]).Keys| < PROCESSES)
    && forall j | i < j < |run| && Names(run[j], pid) :: run[j].Register? && run[j].start == 0
  }

  predicate Decisive(r: Request, pid: Pid) {
    Names(r, pid) && !(r.Register? && r.start == 0)
  }

  lemma EarlierStillLast(run: seq<Request>, pid: Pid, i: nat)
    requires run != [] && i < |run| - 1
    ensures LastRegisters(run, pid, i)
        <==> LastRegisters(run[..|run| - 1], pid, i) && !Decisive(run[|run| - 1], pid)
  {
    var n := |run| - 1;
    var init := run[..n];
    assert init[..i] == run[..i];
    assert forall j | i < j < n :: init[j] == run[j];
  }

  lemma LastStep(run: seq<Request>, pid: Pid)
    requires run != [] && Decisive(run[|run| - 1], pid)
    ensures pid in AnswerAll(map[], run) <==> LastRegisters(run, pid, |run| - 1)
    ensures pid in AnswerAll(map[], run) ==>
              AnswerAll(map[], run)[pid]
              == run[|run| - 1].process.(startTime := run[|run| - 1].start)
  {
  }

  /** A pid is registered after a run exactly when the last request that counts for it registered it. */
  lemma {:induction false} LastRequestDecides(run: seq<Request>, pid: Pid)
    ensures pid in AnswerAll(map[], run) <==> exists i: nat :: LastRegisters(run, pid, i)
    ensures forall i: nat | LastRegisters(run, pid, i) ::
              pid in AnswerAll(map[], run) &&
              AnswerAll(map[], run)[pid] == run[i].process.(startTime := run[i].start)
  {
    if run != [] {
      var n := |run| - 1;
      var init := run[..n];
      LastRequestDecides(init, pid);
      forall i: nat | i < n
        ensures LastRegisters(run, pid, i) <==> LastRegisters(init, pid, i) && !Decisive(run[n], pid)
      {
        EarlierStillLast(run, pid, i);
      }
      forall i: nat | LastRegisters(init, pid, i) || LastRegisters(run, pid, i) ensures i < n || i == n {}
      if Decisive(run[n], pid) {
        assert forall i: nat | LastRegisters(run, pid, i) :: i == n;
        LastStep(run, pid);
      } else {
        assert !LastRegisters(run, pid, n);
        assert pid in AnswerAll(map[], run) <==> pid in AnswerAll(map[], init);
      }
    }
  }

  /** Since kill point number `mark`, slot `index` has been a tombstone and nothing else has changed. */
  ghost predicate AllWithdrawn(moments: seq<seq<ProcessOwner>>, before: seq<ProcessOwner>, index: nat, mark: nat)
    requires index < |before|
  {
    mark <= |moments|
    && forall i | mark <= i < |moments| ::
         exists o: ProcessOwner :: o.pid == -1 && moments[i] == before[index := o]
  }

  lemma NoneYet(moments: seq<seq<ProcessOwner>>, before: seq<ProcessOwner>, index: nat)
    requires index < |before|
    ensures AllWithdrawn(moments, before, index, |moments|)
  {
  }

  /** Writing the chosen slot stores the process, and until then the table does without the pid. */
  lemma ChosenWritten(slots: seq<ProcessOwner>, index: nat, process: ProcessOwner, start: uint64,
                      moments: seq<seq<ProcessOwner>>, mark: nat)
    requires process.pid > 0 && start != 0 && Valid(slots) && Choice(slots, process.pid, index)
    requires AllWithdrawn(moments, slots, index, mark)
    ensures var now := slots[index := process.(startTime := start)];
            Valid(now) && Registered(now) == Answer(Registered(slots), Register(process, start))
    ensures mark <= |moments|
    ensures forall i | mark <= i < |moments| ::
              Valid(moments[i]) && Registered(moments[i]) == Answer(Registered(slots), Forget(process.pid))
  {
    hide Valid, Registered;
  }

  lemma NotStarted(m: Identities, process: ProcessOwner)
    ensures Answer(m, Register(process, 0)) == m
  {
  }

  lemma NotChosen(slots: seq<ProcessOwner>, process: ProcessOwner, start: uint64)
    requires process.pid > 0 && Valid(slots)
    requires process.pid !in Registered(slots) && |Registered(slots).Keys| == PROCESSES
    ensures Answer(Registered(slots), Register(process, start)) == Registered(slots)
  {
  }

  lemma ChosenFits(slots: seq<ProcessOwner>, pid: Pid, index: nat)
    requires Valid(slots) && Choice(slots, pid, index)
    ensures index < PROCESSES == |slots| && (pid in Registered(slots) || |Registered(slots).Keys| < PROCESSES)
  {
  }

  predicate Kernel(r: Request) {
    r.Register? && r.start != 0 ==> r.process.pid > 0
  }

  class Table {
    var version: nat
    const processes: array<ProcessOwner>
    ghost var moments: seq<seq<ProcessOwner>>

    constructor ()
      ensures fresh(processes) && version == 0 && moments == []
      ensures Valid(processes[..]) && Registered(processes[..]) == map[]
    {
      version, moments := 0, [];
      processes := new ProcessOwner[PROCESSES](_ => EMPTY_PROCESS);
      new;
      assert forall i | 0 <= i < PROCESSES :: View(processes[..])[i] == Vacant;
    }

    /** The scan of RegisterProcess: the pid's own slot, else the first reusable one on its chain. */
    method FindFree(pid: Pid) returns (free: Option<nat>)
      requires Valid(processes[..])
      ensures free.Some? ==> Choice(processes[..], pid, free.value)
      ensures free.None? ==> pid !in Registered(processes[..]) && |Registered(processes[..]).Keys| == PROCESSES
    {
      assert processes.Length == PROCESSES;
      hide View, Choice, Registered, WellFormed;
      ghost var cells := View(processes[..]);
      ghost var at := 0;
      free := None;
      var index, n := Home(pid), 0;
      while n < PROCESSES
        invariant 0 <= n <= PROCESSES && index < PROCESSES
        invariant n < PROCESSES ==> index == At(HOME(pid), n, PROCESSES)
        invariant Passed(cells, pid, n)
        invariant free.Some? ==> at < n && free.value == At(HOME(pid), at, PROCESSES) && !cells[free.value].Live?
        invariant free.None? ==> forall j | 0 <= j < n :: cells[At(HOME(pid), j, PROCESSES)].Live?
      {
        var slot := processes[index];
        ViewAt(processes[..], index);
        if slot.pid == pid {
          RegisteredHere(cells, pid, n);
          Chosen(processes[..], pid, n);
          return Some(index);
        }
        if slot.pid <= 0 && free.None? { free, at := Some(index), n; }
        if slot.pid == 0 { break; }
        n, index := n + 1, Next(index);
      }
      NotRegistered(cells, pid, n);
      if free.Some? {
        Chosen(processes[..], pid, at);
      } else {
        AllLive(cells, pid);
      }
    }

    /** Between two stores only the one slot has changed, it is withdrawn, and the odd version warns the readers. */
    ghost method KillPoint(before: seq<ProcessOwner>, index: nat, mark: nat)
      requires index < |before| && AllWithdrawn(moments, before, index, mark)
      requires index < processes.Length && processes[..] == before[index := processes[index]]
      requires processes[index].pid == -1 && version % 2 == 1
      modifies this`moments
      ensures AllWithdrawn(moments, before, index, mark)
    {
      moments := moments + [processes[..]];
    }

    /** The field stores of RegisterProcess: the pid is withdrawn first and published last. */
    method WriteSlot(index: nat, process: ProcessOwner, start: uint64)
      requires index < processes.Length
      modifies this, processes
      ensures processes[..] == old(processes[..])[index := process.(startTime := start)]
      ensures version % 2 == 1 && old(version) <= version <= old(version) + 1
      ensures AllWithdrawn(moments, old(processes[..]), index, |old(moments)|)
    {
      hide AllWithdrawn;
      ghost var before, mark := processes[..], |moments|;
      NoneYet(moments, before, index);
      if version % 2 == 0 { version := version + 1; }
      processes[index] := processes[index].(pid := -1);
      KillPoint(before, index, mark);
      processes[index] := processes[index].(realUid := process.realUid);
      KillPoint(before, index, mark);
      processes[index] := processes[index].(effectiveUid := process.effectiveUid);
      KillPoint(before, index, mark);
      processes[index] := processes[index].(realGid := process.realGid);
      KillPoint(before, index, mark);
      processes[index] := processes[index].(effectiveGid := process.effectiveGid);
      KillPoint(before, index, mark);
      processes[index] := processes[index].(startTime := start);
      KillPoint(before, index, mark);
      processes[index] := processes[index].(pid := process.pid);
    }

    method Unlock()
      modifies this`version
      ensures version % 2 == 0 && old(version) <= version <= old(version) + 1
    {
      if version % 2 == 1 { version := version + 1; }
    }

    method RegisterProcess(process: ProcessOwner, start: uint64) returns (ok: bool)
      requires Valid(processes[..]) && Kernel(Register(process, start))
      modifies this, processes
      ensures Valid(processes[..])
      ensures Registered(processes[..]) == Answer(old(Registered(processes[..])), Register(process, start))
      ensures start != 0 ==> version % 2 == 0
      ensures old(version) <= version && (version == old(version) ==> processes[..] == old(processes[..]))
      ensures ok <==> start != 0 && (process.pid in old(Registered(processes[..]))
                                     || |old(Registered(processes[..])).Keys| < PROCESSES)
      // A tracer killed in between leaves the table without the pid, and all other pids as they were.
      ensures |old(moments)| <= |moments|
      ensures forall i | |old(moments)| <= i < |moments| :: start != 0 && Valid(moments[i])
                && Registered(moments[i]) == Answer(old(Registered(processes[..])), Forget(process.pid))
    {
      hide Valid, Registered, Choice, Answer, AllWithdrawn, View, CellOf, HOME, WellFormed, Contents, Home;
      if start == 0 {
        NotStarted(Registered(processes[..]), process);
        return false;
      }
      ghost var before, mark := processes[..], |moments|;
      var free := FindFree(process.pid);
      if free.Some? {
        ChosenFits(before, process.pid, free.value);
        WriteSlot(free.value, process, start);
        ChosenWritten(before, free.value, process, start, moments, mark);
      } else {
        NotChosen(before, process, start);
      }
      Unlock();
      return free.Some?;
    }

    method ForgetProcess(pid: Pid)
      requires Valid(processes[..])
      modifies this, processes
      ensures Valid(processes[..])
      ensures Registered(processes[..]) == Answer(old(Registered(processes[..])), Forget(pid))
      ensures version % 2 == 0
      ensures old(version) <= version && (version == old(version) ==> processes[..] == old(processes[..]))
    {
      hide AllWithdrawn;
      ghost var before, cells, mark := processes[..], View(processes[..]), |moments|;
      var index, n := Home(pid), 0;
      while n < PROCESSES
        invariant 0 <= n <= PROCESSES && index < PROCESSES && processes[..] == before
        invariant n < PROCESSES ==> index == At(HOME(pid), n, PROCESSES)
        invariant Passed(cells, pid, n)
      {
        assert cells[index] == CellOf(processes[index]);
        if processes[index].pid == 0 { break; }
        if processes[index].pid == pid {
          RegisteredHere(cells, pid, n);
          TombstoneRemoves(cells, HOME, index);
          if version % 2 == 0 { version := version + 1; }
          NoneYet(moments, before, index);
          processes[index] := processes[index].(pid := -1);
          KillPoint(before, index, mark);
          assert View(processes[..]) == cells[index := Tombstone];
          Unlock();
          return;
        }
        n, index := n + 1, Next(index);
      }
      NotRegistered(cells, pid, n);
      Unlock();
    }

    /** The body of Process between its two reads of an even, unchanged version. */
    method Process(pid: Pid, start: uint64) returns (process: Option<ProcessOwner>)
      requires Valid(processes[..])
      ensures process == var m := Registered(processes[..]);
                         if pid in m && m[pid].startTime == start then Some(m[pid]) else None
    {
      ghost var cells := View(processes[..]);
      var index, n := Home(pid), 0;
      while n < PROCESSES
        invariant 0 <= n <= PROCESSES && index < PROCESSES
        invariant n < PROCESSES ==> index == At(HOME(pid), n, PROCESSES)
        invariant Passed(cells, pid, n)
      {
        var slot := processes[index];
        assert cells[index] == CellOf(slot);
        if slot.pid == 0 { break; }
        if slot.pid == pid {
          RegisteredHere(cells, pid, n);
          return if slot.startTime == start then Some(slot) else None;
        }
        n, index := n + 1, Next(index);
      }
      NotRegistered(cells, pid, n);
      return None;
    }

    /** Any run of requests leaves the table standing for the map that the run describes. */
    method Serve(run: seq<Request>)
      requires Valid(processes[..]) && forall r | r in run :: Kernel(r)
      modifies this, processes
      ensures Valid(processes[..])
      ensures Registered(processes[..]) == AnswerAll(old(Registered(processes[..])), run)
    {
      for i := 0 to |run|
        invariant Valid(processes[..])
        invariant Registered(processes[..]) == AnswerAll(old(Registered(processes[..])), run[..i])
      {
        assert run[..i + 1][..i] == run[..i];
        match run[i]
        case Register(process, start) => var _ := RegisterProcess(process, start);
        case Forget(pid) => ForgetProcess(pid);
      }
      assert run[..|run|] == run;
    }
  }
}
