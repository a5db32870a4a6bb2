/**
  What a run of the store does, seen from outside: requests that return or are killed
  anywhere, startups, and power cuts. However they follow each other, recovery yields
  the effect of a definite part of them.
 */
module Runs {
  import opened Types
  import opened Codec
  import opened FileTable
  import opened Journal
  import opened Disks
  import P = Probing

  /** What a process killed at some instant leaves behind for the others. */
  datatype Image = Image(
    disk: Disk, files: seq<FileOwner>, sequence: uint64, checkpoint: uint64,
    dirty: bool, attached: bool)

  /**
    An instant, with the versions of the table so far, the number of the last one known to be durable, and
    what the files tell behind older snapshots.
   */
  datatype Moment = Moment(image: Image, history: seq<Owners>, durable: nat, others: Others)

  function Last(history: seq<Owners>): Owners
    requires history != []
  {
    history[|history| - 1]
  }

  /** The shared memory agrees with the files, which end in a whole record. */
  ghost predicate Clean(i: Image, history: seq<Owners>) {
    && Valid(i.files) && history != []
    && Recorded(i.files) == Last(history) && i.sequence == |history| - 1
    && i.checkpoint <= i.sequence
    && |i.disk.journal| % RECORD_SIZE == 0
  }

  /** Holds at every instant: the files recover the history, and an attached table not marked dirty is current. */
  ghost predicate CrashOk(m: Moment) {
    && DiskOk(m.image.disk, m.history, m.durable, m.others) && |m.image.files| == SLOTS
    && (m.image.attached && !m.image.dirty ==> Clean(m.image, m.history))
  }

  lemma CrashBounds(m: Moment)
    requires CrashOk(m)
    ensures m.durable < |m.history| <= 0x1_0000_0000_0000_0000
  {
    hide DiskOk, Clean;
    Bounds(m.image.disk, m.history, m.durable, m.others);
  }

  /** A table that is marked dirty, or not attached yet, may hold anything: a writer may die between two stores. */
  lemma AnyTable(m: Moment, files: seq<FileOwner>, sequence: uint64, checkpoint: uint64)
    requires CrashOk(m) && (m.image.dirty || !m.image.attached) && |files| == SLOTS
    ensures CrashOk(m.(image := m.image.(files := files, sequence := sequence, checkpoint := checkpoint)))
  {
  }

  // ----- Steps

  /**
    How a step of the store's life can end. Compacted is a checkpoint, or with `ok` false anything else that changes no
    record; Rewritten is the startup scan's replacement of all records.
   */
  datatype Event =
    | Returned(owner: FileOwner, durably: bool, ok: bool)
    | Killed(owner: FileOwner)
    | Compacted(ok: bool)
    | Rewritten(live: seq<FileOwner>, ok: bool)
    | PowerLost

  predicate Writes(e: Event) { e.Returned? || e.Killed? }

  /** A checkpoint was completed: what came before is on stable storage for good. */
  predicate Settles(e: Event) { (e.Compacted? || e.Rewritten?) && e.ok }

  ghost predicate Extends(before: seq<Owners>, owner: FileOwner, after: seq<Owners>) {
    before != [] && (after == before || after == before + [Stored(Last(before), owner)])
  }

  /** One of the tables' histories that the files tell. */
  predicate IsTold(m: Moment, history: seq<Owners>) { history == m.history || history in m.others.Values }

  /** What an event may make of a history that stays told behind an older snapshot. */
  ghost predicate Advances(e: Event, before: seq<Owners>, after: seq<Owners>) {
    if Writes(e) then Extends(before, e.owner, after) else !e.PowerLost? && after == before
  }

  /** The older snapshots go on telling; one is given up only if the table behind it cannot take a record that was written. */
  ghost predicate OthersFollow(m: Moment, e: Event, next: Moment) {
    && (forall s | s in next.others :: exists h :: IsTold(m, h) && Advances(e, h, next.others[s]))
    && forall s | s in next.image.disk.olderSnapshots && s !in next.others ::
         && s in m.image.disk.olderSnapshots
         && (s in m.others ==> Writes(e) && |next.history| > |m.history| && !TakesBehind(m.others, s, e.owner))
  }

  /** The table that is read after the event. */
  ghost predicate Follows(m: Moment, e: Event, next: Moment) {
    match e
    case Compacted(_) => next.history == m.history
    case Killed(owner) => Extends(m.history, owner, next.history)
    case Returned(owner, durably, ok) =>
      Extends(m.history, owner, next.history)
      && (ok && durably && next.history != m.history ==> next.durable == |next.history| - 1)
      && (ok ==> owner.Id() in Last(next.history) && Last(next.history)[owner.Id()] == owner)
    case Rewritten(live, ok) =>
      m.history != []
      && (next.history == ReplacedBy(m.history, Fold(map[], live)) || (!ok && next.history == m.history))
    case PowerLost =>
      next.history != [] && next.durable == |next.history| - 1 && next.others == map[]
      && exists told :: IsTold(m, told) && next.history <= told
  }

  ghost predicate Step(m: Moment, e: Event, next: Moment) {
    && CrashOk(next) && m.durable <= next.durable
    && Follows(m, e, next)
    && (!e.PowerLost? ==> OthersFollow(m, e, next))
    && (Settles(e) ==> next.durable == |next.history| - 1 && next.others == map[])
  }

  /** A sequence of steps from a moment at which no older snapshot can come back. */
  ghost predicate Run(moments: seq<Moment>, events: seq<Event>) {
    && |moments| == |events| + 1 && CrashOk(moments[0]) && moments[0].others == map[]
    && forall i | 0 <= i < |events| :: Step(moments[i], events[i], moments[i + 1])
  }

  /** What a power cut leaves, as far as the next process can tell. */
  function Cut(m: Moment, s: Option<Bytes>, j: Bytes, survivor: nat): Moment
    requires (s == m.image.disk.snapshot || s in m.others)
    requires survivor < |Behind(m.image.disk, m.history, m.others, s)|
  {
    Moment(m.image.(disk := Disk(s, {}, j, |j|, {}), attached := false),
           Behind(m.image.disk, m.history, m.others, s)[..survivor + 1], survivor, map[])
  }

  /** Whatever survives a power cut, recovery can start from it, but for a snapshot that was given up. */
  lemma PowerCutSteps(m: Moment, s: Option<Bytes>, j: Bytes)
    requires CrashOk(m) && m.image.disk.MaySurvive(s, j) && (s == m.image.disk.snapshot || s in m.others)
    ensures Recover(s, j).Some?
    ensures Recover(s, j).value.sequence < |Behind(m.image.disk, m.history, m.others, s)|
    ensures Step(m, PowerLost, Cut(m, s, j, Recover(s, j).value.sequence))
  {
    hide DiskOk, Recover, Clean, Disk.MaySurvive;
    PowerCutRestarts(m.image.disk, m.history, m.durable, m.others, s, j);
    assert IsTold(m, Behind(m.image.disk, m.history, m.others, s));
  }

  // ----- What a run amounts to

  datatype Op = Nothing | Put(owner: FileOwner) | Reset(owners: seq<FileOwner>)

  function Perform(m: Owners, op: Op): Owners {
    match op
    case Nothing => m
    case Put(owner) => Stored(m, owner)
    case Reset(owners) => Fold(map[], owners)
  }

  function Play(m: Owners, ops: seq<Op>): Owners {
    if ops == [] then m else Perform(Play(m, ops[..|ops| - 1]), ops[|ops| - 1])
  }

  /** What an event may amount to; for an acknowledged Set see also Undone. */
  predicate Effect(e: Event, op: Op) {
    match e
    case Returned(owner, _, _) => op == Put(owner) || op == Nothing
    case Killed(owner) => op == Put(owner) || op == Nothing
    case Compacted(_) => op == Nothing
    case Rewritten(live, ok) => op == Reset(live) || (!ok && op == Nothing)
    case PowerLost => op == Nothing
  }

  predicate Acknowledged(e: Event) { e.Returned? && e.ok }

  /** The version of the initial history to start from, the events that count, and what each amounts to. */
  datatype Story = Story(base: nat, path: seq<nat>, ops: seq<Op>)
  {
    predicate Ok(n: nat) { |ops| == |path| && forall i | 0 <= i < |path| :: path[i] < n }
  }

  /** Event `i` was undone by a power cut, before it was durable and with all that came between them. */
  ghost predicate Lost(moments: seq<Moment>, events: seq<Event>, n: nat, path: seq<nat>, i: nat)
    requires |moments| == |events| + 1 && i < n <= |events|
  {
    exists c | i < c < n ::
      events[c].PowerLost? && |moments[i + 1].history| - 1 > moments[c].durable && forall k | i <= k < c :: k !in path
  }

  /** Step `k` of the story is a replacement that came to nothing, and a power cut at `c`, or one about to come, explains it. */
  predicate Reverted(events: seq<Event>, n: nat, t: Story, k: nat, c: nat, undo: bool)
    requires c <= n <= |events| && t.Ok(n) && k < |t.path|
  {
    && (if c < n then events[c].PowerLost? else undo)
    && events[t.path[k]].Rewritten? && t.ops[k] == Nothing && forall x | t.path[k] < x < c :: !Settles(events[x])
  }

  /** Power cut now would revert a replacement. */
  ghost predicate Reverting(events: seq<Event>, n: nat, t: Story)
    requires n <= |events| && t.Ok(n)
  {
    exists k | 0 <= k < |t.path| :: Reverted(events, n, t, k, n, true)
  }

  /**
    Step `j` of the story found its record in the table of a replacement that a later power cut reverted; or would, if
    power were cut now, where `undo` allows for it.
   */
  ghost predicate Undone(moments: seq<Moment>, events: seq<Event>, n: nat, t: Story, j: nat, undo: bool)
    requires |moments| == |events| + 1 && n <= |events| && t.Ok(n) && j < |t.path|
  {
    var i := t.path[j];
    && moments[i + 1].history == moments[i].history && moments[i + 1].others != map[]
    && exists k, c | 0 <= k < j && i < c <= n ::
         t.path[k] < i && Reverted(events, n, t, k, c, undo)
  }

  /**
    After `n` events the history `told` is told by the story. With `loss` a power cut may be about to cut the history
    down to it, with `undo` to bring back the older snapshot that tells it.
   */
  ghost predicate Tale(moments: seq<Moment>, events: seq<Event>, n: nat, told: seq<Owners>, loss: bool, undo: bool, t: Story)
    requires |moments| == |events| + 1 && n <= |events|
  {
    && moments[0].history != [] && told != [] && t.Ok(n)
    && moments[0].durable <= t.base < |moments[0].history|
    && (t.base == |moments[0].history| - 1 || loss || exists c | 0 <= c < n :: events[c].PowerLost?)
    && (forall j | 0 <= j < |t.path| :: !events[t.path[j]].PowerLost? && Effect(events[t.path[j]], t.ops[j]))
    && (forall i, j | 0 <= i < j < |t.path| :: t.path[i] < t.path[j])
    && Last(told) == Play(moments[0].history[t.base], t.ops)
    && (forall i | 0 <= i < n ::
          i in t.path || events[i].PowerLost? || Lost(moments, events, n, t.path, i)
          || (loss && |moments[i + 1].history| > |told| && forall k | k in t.path :: k < i))
    && (forall j | 0 <= j < |t.path| && Acknowledged(events[t.path[j]]) && t.ops[j] == Nothing ::
          Undone(moments, events, n, t, j, undo))
    && (undo ==> Reverting(events, n, t))
  }

  /** The table after `n` events is told by the story: only what was lost to power cuts does not count. */
  ghost predicate Told(moments: seq<Moment>, events: seq<Event>, n: nat, t: Story)
    requires |moments| == |events| + 1 && n <= |events|
  {
    Tale(moments, events, n, moments[n].history, false, false, t)
  }

  // ----- Telling the story of a run

  lemma RunAt(moments: seq<Moment>, events: seq<Event>, i: nat)
    requires Run(moments, events) && i <= |events|
    ensures CrashOk(moments[i]) && moments[i].durable < |moments[i].history|
  {
    hide CrashOk, Follows, OthersFollow;
    if i > 0 { assert Step(moments[i - 1], events[i - 1], moments[i]); }
    CrashBounds(moments[i]);
  }

  lemma {:induction false} DurableStays(moments: seq<Moment>, events: seq<Event>, i: nat, j: nat)
    requires Run(moments, events) && i <= j <= |events|
    ensures moments[i].durable <= moments[j].durable
    decreases j - i
  {
    hide CrashOk, Follows, OthersFollow;
    if i < j {
      DurableStays(moments, events, i, j - 1);
      assert Step(moments[j - 1], events[j - 1], moments[j]);
    }
  }

  /** All histories that are told have the same length. */
  lemma ToldAlike(m: Moment, history: seq<Owners>)
    requires CrashOk(m) && IsTold(m, history)
    ensures |history| == |m.history|
  {
    hide Clean, Tells;
    if history != m.history {
      var s :| s in m.others && m.others[s] == history;
    }
  }

  /** Where a history that is told comes from. */
  lemma Before(m: Moment, e: Event, next: Moment, history: seq<Owners>) returns (was: seq<Owners>)
    requires Step(m, e, next) && !e.PowerLost? && IsTold(next, history)
    ensures IsTold(m, was)
    ensures if history == next.history then was == m.history else Advances(e, was, history) && !Settles(e)
  {
    hide CrashOk, Follows, Advances;
    if history == next.history {
      was := m.history;
    } else {
      var s :| s in next.others && next.others[s] == history;
      was :| IsTold(m, was) && Advances(e, was, next.others[s]);
    }
  }

  /** What becomes of the table that is read. */
  lemma OpOf(m: Moment, e: Event, next: Moment) returns (op: Op)
    requires Step(m, e, next) && !e.PowerLost? && m.history != []
    ensures next.history != [] && Effect(e, op) && Last(next.history) == Perform(Last(m.history), op)
    ensures Acknowledged(e) ==> op == Put(e.owner)
  {
    hide CrashOk, OthersFollow, Fold;
    match e
    case Compacted(_) => op := Nothing;
    case Killed(owner) => op := if next.history == m.history then Nothing else Put(owner);
    case Returned(owner, _, ok) =>
      op := if next.history == m.history && !ok then Nothing else Put(owner);
      if ok && next.history == m.history { assert Stored(Last(m.history), owner) == Last(m.history); }
    case Rewritten(live, ok) =>
      op := if next.history == m.history && !ok then Nothing else Reset(live);
  }

  /** What becomes of a table behind an older snapshot: it differs from the one that is read only by replacements that it has not seen. */
  lemma OpBehind(m: Moment, e: Event, next: Moment, was: seq<Owners>, history: seq<Owners>) returns (op: Op)
    requires Step(m, e, next) && !e.PowerLost? && was != [] && m.history != []
    requires Advances(e, was, history) && !Settles(e)
    requires |was| == |m.history| && |history| == |next.history|
    ensures history != [] && Effect(e, op) && Last(history) == Perform(Last(was), op)
    ensures was == m.history ==> history == next.history || (e.Rewritten? && op == Nothing)
    ensures Acknowledged(e) && op == Nothing ==> next.history == m.history
  {
    hide CrashOk, OthersFollow, Fold;
    if Writes(e) {
      op := if history == was then Nothing else Put(e.owner);
    } else {
      op := Nothing;
    }
  }

  /** A step leaves all versions of a history but the newest as they were. */
  lemma PrefixStays(m: Moment, e: Event, next: Moment, was: seq<Owners>, history: seq<Owners>, v: nat)
    requires Step(m, e, next) && !e.PowerLost? && |history| > v + 1
    requires if history == next.history then was == m.history else Advances(e, was, history)
    ensures |was| >= v + 1 && history[..v + 1] == was[..v + 1]
  {
    hide CrashOk, OthersFollow, Stored;
  }

  lemma CutAt(m: Moment, next: Moment) returns (was: seq<Owners>)
    requires Step(m, PowerLost, next)
    ensures next.history != [] && next.others == map[] && m.durable <= next.durable == |next.history| - 1
    ensures IsTold(m, was) && next.history <= was
  {
    hide CrashOk;
    was :| IsTold(m, was) && next.history <= was;
  }

  lemma Begins(moments: seq<Moment>, events: seq<Event>, v: nat)
    requires |moments| == |events| + 1 && moments[0].durable <= v < |moments[0].history|
    ensures Tale(moments, events, 0, moments[0].history[..v + 1], v + 1 < |moments[0].history|, false, Story(v, [], []))
  {
  }

  lemma StaysLost(moments: seq<Moment>, events: seq<Event>, k: nat, path: seq<nat>, n: nat, longer: seq<nat>, i: nat)
    requires |moments| == |events| + 1 && i < k <= n <= |events| && Lost(moments, events, k, path, i)
    requires forall p | p in longer :: p in path || p >= k
    ensures Lost(moments, events, n, longer, i)
  {
    var c :| i < c < k && events[c].PowerLost? && |moments[i + 1].history| - 1 > moments[c].durable
             && forall p | i <= p < c :: p !in path;
    assert forall p | i <= p < c :: p !in longer;
  }

  /** A reverted replacement stays one after an event that settles nothing, or if the power cut has come. */
  lemma StaysReverted(events: seq<Event>, n: nat, t: Story, longer: Story, k: nat, c: nat, undo: bool, still: bool)
    requires 0 < n <= |events| && c <= n - 1 && t.Ok(n - 1) && longer.Ok(n) && k < |t.path| <= |longer.path|
    requires longer.path[k] == t.path[k] && longer.ops[k] == t.ops[k] && Reverted(events, n - 1, t, k, c, undo)
    requires c == n - 1 ==> events[n - 1].PowerLost? || (still && !Settles(events[n - 1]))
    ensures exists d | c <= d <= n :: Reverted(events, n, longer, k, d, still)
  {
    if c < n - 1 || events[n - 1].PowerLost? {
      assert Reverted(events, n, longer, k, c, still);
    } else {
      assert Reverted(events, n, longer, k, n, still);
    }
  }

  /** Acknowledged steps that came to nothing stay explained. */
  lemma StaysUndone(moments: seq<Moment>, events: seq<Event>, n: nat, t: Story, longer: Story, j: nat, undo: bool, still: bool)
    requires |moments| == |events| + 1 && 0 < n <= |events| && t.Ok(n - 1) && longer.Ok(n) && j < |t.path|
    requires t.path <= longer.path && t.ops <= longer.ops && Undone(moments, events, n - 1, t, j, undo)
    requires undo ==> events[n - 1].PowerLost? || (still && !Settles(events[n - 1]))
    ensures Undone(moments, events, n, longer, j, still)
  {
    var i := t.path[j];
    var k, c :| 0 <= k < j && i < c <= n - 1 && t.path[k] < i && Reverted(events, n - 1, t, k, c, undo);
    StaysReverted(events, n, t, longer, k, c, undo, still);
  }

  /** One more event counts. */
  lemma OneMore(moments: seq<Moment>, events: seq<Event>, n: nat, was: seq<Owners>, told: seq<Owners>,
                undo: bool, still: bool, t: Story, op: Op) returns (longer: Story)
    requires |moments| == |events| + 1 && 0 < n <= |events| && Tale(moments, events, n - 1, was, false, undo, t)
    requires !events[n - 1].PowerLost? && Effect(events[n - 1], op)
    requires told != [] && Last(told) == Perform(Last(was), op)
    requires undo ==> still && !Settles(events[n - 1])
    requires still && !undo ==> events[n - 1].Rewritten? && op == Nothing
    requires Acknowledged(events[n - 1]) && op == Nothing ==>
               undo && moments[n].history == moments[n - 1].history && moments[n].others != map[]
    ensures Tale(moments, events, n, told, false, still, longer)
  {
    hide Effect, Perform, Lost, Settles, Acknowledged, Undone, Reverted;
    longer := Story(t.base, t.path + [n - 1], t.ops + [op]);
    assert longer.ops[..|longer.ops| - 1] == t.ops;
    OneMoreAccounted(moments, events, n, t.path);
    OneMoreUndone(moments, events, n, undo, still, t, longer);
  }

  lemma OneMoreAccounted(moments: seq<Moment>, events: seq<Event>, n: nat, path: seq<nat>)
    requires |moments| == |events| + 1 && 0 < n <= |events|
    requires forall i | 0 <= i < n - 1 :: i in path || events[i].PowerLost? || Lost(moments, events, n - 1, path, i)
    ensures forall i | 0 <= i < n :: i in path + [n - 1] || events[i].PowerLost?
                                     || Lost(moments, events, n, path + [n - 1], i)
  {
    hide Lost;
    forall i | 0 <= i < n - 1 && i !in path && !events[i].PowerLost? ensures Lost(moments, events, n, path + [n - 1], i) {
      StaysLost(moments, events, n - 1, path, n, path + [n - 1], i);
    }
  }

  lemma OneMoreUndone(moments: seq<Moment>, events: seq<Event>, n: nat, undo: bool, still: bool, t: Story, longer: Story)
    requires |moments| == |events| + 1 && 0 < n <= |events| && t.Ok(n - 1)
    requires |longer.ops| == |longer.path| && longer.path == t.path + [n - 1] && t.ops <= longer.ops
    requires forall j | 0 <= j < |t.path| && Acknowledged(events[t.path[j]]) && t.ops[j] == Nothing ::
               Undone(moments, events, n - 1, t, j, undo)
    requires undo ==> Reverting(events, n - 1, t)
    requires undo ==> still && !Settles(events[n - 1])
    requires still && !undo ==> events[n - 1].Rewritten? && longer.ops[|t.path|] == Nothing
    requires Acknowledged(events[n - 1]) && longer.ops[|t.path|] == Nothing ==>
               undo && moments[n].history == moments[n - 1].history && moments[n].others != map[]
    requires !events[n - 1].PowerLost?
    ensures forall j | 0 <= j < |longer.path| && Acknowledged(events[longer.path[j]]) && longer.ops[j] == Nothing ::
              Undone(moments, events, n, longer, j, still)
    ensures still ==> Reverting(events, n, longer)
  {
    hide Acknowledged, Settles, Undone;
    if undo {
      var k :| 0 <= k < |t.path| && Reverted(events, n - 1, t, k, n - 1, true);
      assert Reverted(events, n, longer, k, n, true);
    } else if still {
      assert Reverted(events, n, longer, |t.path|, n, true);
    }
    hide Reverted;
    forall j | 0 <= j < |longer.path| && Acknowledged(events[longer.path[j]]) && longer.ops[j] == Nothing
      ensures Undone(moments, events, n, longer, j, still)
    {
      if j < |t.path| {
        StaysUndone(moments, events, n, t, longer, j, undo, still);
      } else {
        FoundReverted(moments, events, n, longer, t.path);
      }
    }
  }

  lemma FoundReverted(moments: seq<Moment>, events: seq<Event>, n: nat, longer: Story, path: seq<nat>)
    requires |moments| == |events| + 1 && 0 < n <= |events| && longer.Ok(n) && longer.path == path + [n - 1]
    requires moments[n].history == moments[n - 1].history && moments[n].others != map[]
    requires forall p | p in path :: p < n - 1
    requires Acknowledged(events[n - 1])
    requires Reverting(events, n, longer)
    ensures Undone(moments, events, n, longer, |path|, true)
  {
    var k :| 0 <= k < |longer.path| && Reverted(events, n, longer, k, n, true);
    assert k < |path| && longer.path[k] in path;
  }

  /** An event after which the history is longer than what is told is about to be lost. */
  lemma OneMoreWaits(moments: seq<Moment>, events: seq<Event>, n: nat, told: seq<Owners>, loss: bool, undo: bool, t: Story)
    requires |moments| == |events| + 1 && 0 < n <= |events| && Tale(moments, events, n - 1, told, loss, undo, t)
    requires !events[n - 1].PowerLost? && |moments[n].history| > |told|
    requires undo ==> !Settles(events[n - 1])
    ensures Tale(moments, events, n, told, true, undo, t)
  {
    hide Effect, Play, Lost, Settles, Acknowledged, Undone, Reverted;
    forall i | 0 <= i < n
      ensures i in t.path || events[i].PowerLost? || Lost(moments, events, n, t.path, i)
              || (|moments[i + 1].history| > |told| && forall k | k in t.path :: k < i)
    {
      if i < n - 1 && Lost(moments, events, n - 1, t.path, i) { StaysLost(moments, events, n - 1, t.path, n, t.path, i); }
    }
    forall j | 0 <= j < |t.path| && Acknowledged(events[t.path[j]]) && t.ops[j] == Nothing
      ensures Undone(moments, events, n, t, j, undo)
    {
      StaysUndone(moments, events, n, t, t, j, undo, undo);
    }
    if undo {
      var k :| 0 <= k < |t.path| && Reverted(events, n - 1, t, k, n - 1, true);
      StaysReverted(events, n, t, t, k, n - 1, true, true);
      assert Reverted(events, n, t, k, n, true) by { StillReverted(events, n, t, k); }
    }
  }

  lemma StillReverted(events: seq<Event>, n: nat, t: Story, k: nat)
    requires 0 < n <= |events| && t.Ok(n - 1) && k < |t.path| && Reverted(events, n - 1, t, k, n - 1, true)
    requires !Settles(events[n - 1])
    ensures Reverted(events, n, t, k, n, true)
  {
  }

  /** The power cut has come: what was about to be lost or reverted is. */
  lemma CutComes(moments: seq<Moment>, events: seq<Event>, n: nat, told: seq<Owners>, loss: bool, undo: bool, t: Story)
    requires |moments| == |events| + 1 && 0 < n <= |events| && Tale(moments, events, n - 1, told, loss, undo, t)
    requires events[n - 1].PowerLost? && moments[n - 1].durable <= |told| - 1
    ensures Tale(moments, events, n, told, false, false, t)
  {
    hide Effect, Play, Settles, Acknowledged, Undone, Reverted;
    forall i | 0 <= i < n
      ensures i in t.path || events[i].PowerLost? || Lost(moments, events, n, t.path, i)
    {
      if i < n - 1 {
        if Lost(moments, events, n - 1, t.path, i) { StaysLost(moments, events, n - 1, t.path, n, t.path, i); }
        else if loss && |moments[i + 1].history| > |told| && forall k | k in t.path :: k < i {
          assert events[n - 1].PowerLost? && |moments[i + 1].history| - 1 > moments[n - 1].durable;
        }
      }
    }
    forall j | 0 <= j < |t.path| && Acknowledged(events[t.path[j]]) && t.ops[j] == Nothing
      ensures Undone(moments, events, n, t, j, false)
    {
      StaysUndone(moments, events, n, t, t, j, undo, false);
    }
  }

  /** The story of a history that is told after `n` events. */
  lemma {:induction false} Tell(moments: seq<Moment>, events: seq<Event>, n: nat, told: seq<Owners>) returns (t: Story)
    requires Run(moments, events) && n <= |events| && IsTold(moments[n], told)
    ensures Tale(moments, events, n, told, false, told != moments[n].history, t)
    decreases n, 0
  {
    hide Step, CrashOk, Effect, Tale, Settles, Acknowledged, Advances;
    RunAt(moments, events, n);
    ToldAlike(moments[n], told);
    if n == 0 {
      t := Story(|told| - 1, [], []);
      assert told[..|told|] == told;
      Begins(moments, events, |told| - 1);
    } else if events[n - 1].PowerLost? {
      RunAt(moments, events, n - 1);
      var was := CutAt(moments[n - 1], moments[n]);
      ToldAlike(moments[n - 1], was);
      var loss, undo;
      t, loss, undo := TellUpTo(moments, events, n - 1, was, |told| - 1);
      assert was[..|told|] == told;
      CutComes(moments, events, n, told, loss, undo, t);
    } else {
      t := TellOneMore(moments, events, n, told);
    }
  }

  lemma {:induction false} TellOneMore(moments: seq<Moment>, events: seq<Event>, n: nat, told: seq<Owners>) returns (t: Story)
    requires Run(moments, events) && 0 < n <= |events| && IsTold(moments[n], told) && !events[n - 1].PowerLost?
    ensures Tale(moments, events, n, told, false, told != moments[n].history, t)
    decreases n - 1, 1
  {
    hide Step, CrashOk, Effect, Tale, Settles, Acknowledged, Advances;
    RunAt(moments, events, n - 1);
    RunAt(moments, events, n);
    var was := Before(moments[n - 1], events[n - 1], moments[n], told);
    ToldAlike(moments[n - 1], was);
    ToldAlike(moments[n], told);
    var op;
    if told == moments[n].history {
      op := OpOf(moments[n - 1], events[n - 1], moments[n]);
    } else {
      op := OpBehind(moments[n - 1], events[n - 1], moments[n], was, told);
    }
    t := Tell(moments, events, n - 1, was);
    assert Acknowledged(events[n - 1]) ==> events[n - 1].Returned? by { AcknowledgedSet(events[n - 1]); }
    t := OneMore(moments, events, n, was, told, was != moments[n - 1].history, told != moments[n].history, t, op);
  }

  lemma AcknowledgedSet(e: Event)
    ensures Acknowledged(e) ==> e.Returned?
  {
  }

  /** The story of a history up to version `v`, as if power were about to be cut. */
  lemma {:induction false} TellUpTo(moments: seq<Moment>, events: seq<Event>, n: nat, told: seq<Owners>, v: nat)
    returns (t: Story, loss: bool, undo: bool)
    requires Run(moments, events) && n <= |events| && IsTold(moments[n], told) && moments[n].durable <= v < |told|
    ensures Tale(moments, events, n, told[..v + 1], loss, undo, t)
    ensures undo ==> told != moments[n].history
    decreases n, 1
  {
    hide Step, CrashOk, Tale, Settles, Advances;
    RunAt(moments, events, n);
    ToldAlike(moments[n], told);
    if v + 1 == |told| {
      assert told[..v + 1] == told;
      t := Tell(moments, events, n, told);
      loss, undo := false, told != moments[n].history;
    } else if n == 0 {
      t, loss, undo := Story(v, [], []), true, false;
      Begins(moments, events, v);
    } else {
      RunAt(moments, events, n - 1);
      DurableStays(moments, events, n - 1, n);
      if events[n - 1].PowerLost? {
        var was := CutAt(moments[n - 1], moments[n]);
        assert false;
      } else {
        var was := Before(moments[n - 1], events[n - 1], moments[n], told);
        PrefixStays(moments[n - 1], events[n - 1], moments[n], was, told, v);
        t, loss, undo := TellUpTo(moments, events, n - 1, was, v);
        OneMoreWaits(moments, events, n, told[..v + 1], loss, undo, t);
        loss := true;
      }
    }
  }

  /**
    Whatever requests were made, however their processes ended and whenever the power was cut, recovery yields the
    initial table, updated by the events that count, in order. These are all but the ones that a power cut undid
    before they were durable. An acknowledged request that counts has been done in full, one of a failed or killed
    process in full or not at all. Two things may be undone by a power cut besides: versions of the initial table that
    were not durable, and a replacement of all records whose rename was not, together with acknowledged Sets
    that found their record in the table it made.
   */
  lemma RunRecovers(moments: seq<Moment>, events: seq<Event>) returns (t: Story)
    requires Run(moments, events)
    ensures Told(moments, events, |events|, t)
    ensures var last := moments[|events|].image.disk;
            && Recover(last.snapshot, last.journal).Some?
            && Recover(last.snapshot, last.journal).value.owners == Play(moments[0].history[t.base], t.ops)
  {
    hide DiskOk, Recover, Step, Clean, Play, Tale;
    var last := moments[|events|];
    RunAt(moments, events, |events|);
    KillRecovers(last.image.disk, last.history, last.durable, last.others);
    t := Tell(moments, events, |events|, last.history);
    TaleEnds(moments, events, |events|, last.history, t);
  }

  lemma TaleEnds(moments: seq<Moment>, events: seq<Event>, n: nat, told: seq<Owners>, t: Story)
    requires |moments| == |events| + 1 && n <= |events| && Tale(moments, events, n, told, false, false, t)
    ensures told != [] && t.base < |moments[0].history| && Last(told) == Play(moments[0].history[t.base], t.ops)
  {
    hide Play;
  }

  /** The same for whatever survives a power cut at the end, but for a snapshot that was given up. */
  lemma CutRunRecovers(moments: seq<Moment>, events: seq<Event>, s: Option<Bytes>, j: Bytes) returns (next: Moment, t: Story)
    requires Run(moments, events) && moments[|events|].image.disk.MaySurvive(s, j)
    requires s == moments[|events|].image.disk.snapshot || s in moments[|events|].others
    ensures Run(moments + [next], events + [PowerLost])
    ensures Told(moments + [next], events + [PowerLost], |events| + 1, t)
    ensures Recover(s, j).Some? && Recover(s, j).value.owners == Play(moments[0].history[t.base], t.ops)
  {
    hide DiskOk, Recover, Clean, Play, Disk.MaySurvive, Tale;
    var m := moments[|events|];
    RunAt(moments, events, |events|);
    PowerCutSteps(m, s, j);
    next := Cut(m, s, j, Recover(s, j).value.sequence);
    RunLonger(moments, events, next, PowerLost);
    hide Run;
    t := RunRecovers(moments + [next], events + [PowerLost]);
  }

  lemma RunLonger(moments: seq<Moment>, events: seq<Event>, next: Moment, e: Event)
    requires Run(moments, events) && Step(moments[|events|], e, next)
    ensures Run(moments + [next], events + [e])
  {
    hide CrashOk, Step;
    var ms, es := moments + [next], events + [e];
    forall i | 0 <= i < |es| ensures Step(ms[i], es[i], ms[i + 1]) {
      if i < |events| { assert Step(moments[i], events[i], moments[i + 1]); }
    }
  }

  // ----- What counts for sure

  /** The history, which only a power cut makes shorter. */
  lemma {:induction false} HistoryGrows(moments: seq<Moment>, events: seq<Event>, i: nat, j: nat)
    requires Run(moments, events) && i <= j <= |events|
    requires forall x | i <= x < j :: !events[x].PowerLost?
    ensures |moments[i].history| <= |moments[j].history|
    decreases j - i
  {
    hide CrashOk, OthersFollow, Stored, Fold;
    if i < j {
      HistoryGrows(moments, events, i, j - 1);
      assert Step(moments[j - 1], events[j - 1], moments[j]);
    }
  }

  /** After event `j` everything was durable: a durable Set wrote its record, or a checkpoint was completed. */
  predicate Saves(moments: seq<Moment>, events: seq<Event>, j: nat)
    requires |moments| == |events| + 1 && j < |events|
  {
    moments[j + 1].history != [] && moments[j + 1].durable == |moments[j + 1].history| - 1
  }

  /** An acknowledged durable Set that has written its record, and an acknowledged checkpoint, make everything durable. */
  lemma DurablyDone(moments: seq<Moment>, events: seq<Event>, j: nat)
    requires Run(moments, events) && j < |events|
    requires Settles(events[j])
             || (Acknowledged(events[j]) && events[j].durably && moments[j + 1].history != moments[j].history)
    ensures Saves(moments, events, j)
  {
    hide CrashOk, OthersFollow;
    assert Step(moments[j], events[j], moments[j + 1]);
    RunAt(moments, events, j + 1);
  }

  /** Then every event up to it counts, whatever power cuts come later; SetCounts says when a Set counts in full. */
  lemma SavedCounts(moments: seq<Moment>, events: seq<Event>, n: nat, t: Story, i: nat, j: nat)
    requires Run(moments, events) && i <= j < n <= |events| && Told(moments, events, n, t) && Saves(moments, events, j)
    requires forall x | i <= x <= j :: !events[x].PowerLost?
    ensures i in t.path
  {
    hide CrashOk, Step, Effect, Play, Undone;
    HistoryGrows(moments, events, i + 1, j + 1);
    if Lost(moments, events, n, t.path, i) {
      var c :| i < c < n && events[c].PowerLost? && |moments[i + 1].history| - 1 > moments[c].durable;
      DurableStays(moments, events, j + 1, c);
    }
  }

  /**
    An acknowledged Set that counts has its record in the story, if it wrote that record, or no older snapshot could come
    back, or a completed checkpoint followed before any power cut.
   */
  lemma SetCounts(moments: seq<Moment>, events: seq<Event>, n: nat, t: Story, p: nat)
    requires Run(moments, events) && n <= |events| && Told(moments, events, n, t)
    requires p < |t.path| && t.path[p] < n && Acknowledged(events[t.path[p]])
    requires moments[t.path[p] + 1].history != moments[t.path[p]].history || moments[t.path[p] + 1].others == map[]
             || exists j | t.path[p] < j < n :: Settles(events[j]) && forall x | t.path[p] <= x <= j :: !events[x].PowerLost?
    ensures t.ops[p] == Put(events[t.path[p]].owner)
  {
    hide CrashOk, Step, Play, Lost, Settles, Reverted;
    var i := t.path[p];
    assert Effect(events[i], t.ops[p]);
    if t.ops[p] == Nothing {
      assert Undone(moments, events, n, t, p, false);
      var j :| i < j < n && Settles(events[j]) && forall x | i <= x <= j :: !events[x].PowerLost?;
      var k, c :| 0 <= k < p && i < c <= n && t.path[k] < i && Reverted(events, n, t, k, c, false);
      NotReverted(events, n, t, k, c, j);
    }
  }

  /** So one that left everything durable, with its own record written or no older snapshot around, is never undone. */
  lemma SafeSet(moments: seq<Moment>, events: seq<Event>, n: nat, t: Story, i: nat)
    requires Run(moments, events) && i < n <= |events| && Told(moments, events, n, t)
    requires Acknowledged(events[i]) && Saves(moments, events, i)
    requires moments[i + 1].history != moments[i].history || moments[i + 1].others == map[]
    ensures t.Ok(n) && exists p | 0 <= p < |t.path| :: t.path[p] == i && t.ops[p] == Put(events[i].owner)
  {
    hide CrashOk, Step, Effect, Play, Undone, Lost, Saves;
    SavedCounts(moments, events, n, t, i, i);
    var p :| 0 <= p < |t.path| && t.path[p] == i;
    SetCounts(moments, events, n, t, p);
  }

  lemma NotReverted(events: seq<Event>, n: nat, t: Story, k: nat, c: nat, j: nat)
    requires c <= n <= |events| && t.Ok(n) && k < |t.path| && Reverted(events, n, t, k, c, false)
    requires t.path[k] < j < n && Settles(events[j])
    ensures c <= j && events[c].PowerLost?
  {
  }

  /** Without power cuts every event counts, and every acknowledged one in full. */
  lemma NothingLost(moments: seq<Moment>, events: seq<Event>, n: nat, t: Story)
    requires |moments| == |events| + 1 && n <= |events| && Told(moments, events, n, t)
    requires forall i | 0 <= i < n :: !events[i].PowerLost?
    ensures t.base == |moments[0].history| - 1 && forall i | 0 <= i < n :: i in t.path
    ensures forall j | 0 <= j < |t.path| && Acknowledged(events[t.path[j]]) :: t.ops[j] == Put(events[t.path[j]].owner)
  {
    hide Play, Settles;
  }

  // ----- A Set that finds its record in place

  /** No snapshot yet, or that of an empty store, as the first checkpoint writes it before others may attach. */
  ghost predicate TellsNothing(s: Option<Bytes>) { LoadSnapshot(s) == Some(BLANK) }

  lemma EmptySnapshot() returns (s: Option<Bytes>)
    ensures s == Some(SnapshotOf([], 0)) && TellsNothing(s)
  {
    s := Some(SnapshotOf([], 0));
    SnapshotRoundTrip([], 0);
  }

  lemma NothingTold()
    ensures TellsNothing(None)
  {
  }

  lemma EmptyDisk(s: Option<Bytes>)
    requires TellsNothing(s)
    ensures DiskOk(Disk(s, {}, [], 0, {}), [map[]], 0, map[])
    ensures Recover(s, []).Some? && Recover(s, []).value.sequence == 0
  {
    hide LoadSnapshot;
    var d := Disk(s, {}, [], 0, {});
    assert d.Journals() == {Version([], 0)};
    assert Frames([]) == [];
  }

  lemma TableWith(o: FileOwner) returns (empty: seq<FileOwner>, files: seq<FileOwner>)
    requires CanPut(map[], o)
    ensures Valid(empty) && Recorded(empty) == map[] && Valid(files) && Recorded(files) == Stored(map[], o)
  {
    empty := seq(SLOTS, _ => EMPTY_OWNER);
    EmptyTable(empty);
    StoppedProbe(empty, o.Id());
    WritingStores(empty, o);
    files := empty[P.At(HOME(o.Id()), StopAt(empty, o.Id()), SLOTS) := o];
  }

  /**
    It is acknowledged without a sync, so if the record came from a Set that did not ask for durability a power
    cut undoes both; SafeSet and NewestSurvives say when it does not.
   */
  lemma UnsyncedSetLost(o: FileOwner) returns (moments: seq<Moment>)
    requires CanPut(map[], o)
    ensures Run(moments, [Returned(o, false, true), Returned(o, true, true), PowerLost])
    ensures forall i | 0 <= i < 3 :: moments[i].image.attached && Clean(moments[i].image, moments[i].history)
    ensures moments[0].image.disk == Disk(Some(SnapshotOf([], 0)), {}, [], 0, {})
    ensures moments[2].history == [map[], Stored(map[], o)] && moments[3].history == [map[]]
  {
    hide DiskOk, Packed, CanPut, Recover, Valid, Recorded, Stored, CrashOk, Clean, Step, Grown, SnapshotOf, TellsNothing;
    var empty, files := TableWith(o);
    var s := EmptySnapshot();
    var d := Disk(s, {}, [], 0, {});
    EmptyDisk(s);
    var start := AttachedAt(d, empty, [map[]]);
    RecordCommits(d, [map[]], 0, map[], o);
    NobodyElse(o);
    var m := AttachedAt(d.Append(Packed(o, 1)), files, [map[]] + [Stored(map[], o)]);
    SetsStep(start, m, o);
    UnsyncedCut(m, s, Packed(o, 1));
    moments := [start, m, m, Cut(m, s, [], 0)];
  }

  lemma NobodyElse(o: FileOwner)
    ensures Grown(map[], o) == map[]
  {
  }

  lemma AttachedAt(d: Disk, files: seq<FileOwner>, history: seq<Owners>) returns (m: Moment)
    requires DiskOk(d, history, 0, map[]) && 0 < |history| < 0x1_0000_0000 && |d.journal| % RECORD_SIZE == 0
    requires Valid(files) && Recorded(files) == Last(history)
    ensures m == Moment(Image(d, files, |history| - 1, 0, false, true), history, 0, map[])
    ensures CrashOk(m) && Clean(m.image, history)
  {
    hide DiskOk;
    m := Moment(Image(d, files, |history| - 1, 0, false, true), history, 0, map[]);
  }

  lemma UnsyncedCut(m: Moment, s: Option<Bytes>, data: Bytes)
    requires CrashOk(m) && TellsNothing(s) && m.image.disk == Disk(s, {}, [], 0, {}).Append(data) && |m.history| > 0
    ensures Step(m, PowerLost, Cut(m, s, [], 0)) && Cut(m, s, [], 0).history == m.history[..1]
  {
    hide CrashOk, Step, Recover, TellsNothing;
    var d := m.image.disk;
    assert d.Current() in d.Journals() && d.Current().bytes[..0] == [];
    EmptyDisk(s);
    PowerCutSteps(m, s, []);
  }

  lemma SetsStep(start: Moment, m: Moment, o: FileOwner)
    requires CrashOk(m) && start.history == [map[]] && m.history == [map[], Stored(map[], o)]
    requires start.durable == m.durable && start.others == m.others == map[] && m.image.disk.olderSnapshots == {}
    ensures Step(start, Returned(o, false, true), m) && Step(m, Returned(o, true, true), m)
  {
    hide CrashOk;
    assert start.history + [Stored(Last(start.history), o)] == m.history;
  }

  // ----- A replacement whose rename was not durable

  /**
    A first opener is killed between the rename and the directory sync; the next one finds the record of `o` in place, which
    is acknowledged as durable; then the power is cut and the old snapshot is back. SetCounts says when this cannot be.
   */
  lemma ReplacementReverted(o: FileOwner) returns (moments: seq<Moment>)
    requires CanPut(map[], o)
    ensures Run(moments, [Rewritten([o], false), Returned(o, true, true), PowerLost])
    ensures forall i | 0 <= i < 3 :: Clean(moments[i].image, moments[i].history)
    ensures moments[2].history == [Stored(map[], o)] && moments[3].history == [map[]]
  {
    hide CanPut, Recover, Valid, Recorded, Stored, Occupied, SnapshotOf, CrashOk, Clean, Step, Fold;
    var empty, files := TableWith(o);
    var d := Disk(None, {}, [], 0, {});
    var start := Moment(Image(d, empty, 0, 0, false, false), [map[]], 0, map[]);
    var data := SnapshotOf(Occupied(files), 0);
    var after := Moment(Image(d.RenameSnapshot(data), files, 0, 0, false, false), [Stored(map[], o)], 0, map[None := [map[]]]);
    RenamedOk(d, start, after, empty, files, data);
    RevertedSteps(start, after, o);
    RevertingCut(after);
    moments := [start, after, after, Cut(after, None, [], 0)];
  }

  lemma RenamedOk(d: Disk, start: Moment, after: Moment, empty: seq<FileOwner>, files: seq<FileOwner>, data: Bytes)
    requires d == Disk(None, {}, [], 0, {}) && data == SnapshotOf(Occupied(files), 0)
    requires Valid(empty) && Recorded(empty) == map[] && Valid(files)
    requires start == Moment(Image(d, empty, 0, 0, false, false), [map[]], 0, map[])
    requires after.image == Image(d.RenameSnapshot(data), files, 0, 0, false, false)
    requires after.history == [Recorded(files)] && after.durable == 0 && after.others == map[None := [map[]]]
    ensures CrashOk(start) && CrashOk(after) && Clean(start.image, start.history) && Clean(after.image, after.history)
  {
    NothingTold();
    hide DiskOk, Recorded, Occupied, SnapshotOf, LoadSnapshot, TellsNothing, Recover;
    EmptyDisk(None);
    SnapshotOfTable(files, 0);
    assert ReplacedBy([map[]], Recorded(files)) == [Recorded(files)];
    RenameKeeps(d, data, [map[]], 0, map[], Recorded(files));
    assert map[][None := [map[]]] == after.others;
  }

  lemma RevertedSteps(start: Moment, after: Moment, o: FileOwner)
    requires CrashOk(after) && start.history == [map[]] && after.history == [Stored(map[], o)] && start.durable == after.durable
    requires start.others == map[] && after.others == map[None := [map[]]] && after.image.disk.olderSnapshots == {None}
    ensures Step(start, Rewritten([o], false), after) && Step(after, Returned(o, true, true), after)
  {
    hide CrashOk;
    assert [o][1..] == [] && Fold(map[], [o]) == Stored(map[], o);
    assert ReplacedBy(start.history, Fold(map[], [o])) == after.history;
    assert IsTold(start, [map[]]) && IsTold(after, after.others[None]);
    assert Advances(Rewritten([o], false), [map[]], after.others[None]);
    assert Advances(Returned(o, true, true), after.others[None], after.others[None]);
  }

  lemma RevertingCut(m: Moment)
    requires CrashOk(m) && m.others == map[None := [map[]]] && m.image.disk.olderSnapshots == {None}
    requires m.image.disk.snapshot != None && m.image.disk.journal == [] && m.image.disk.synced == 0
    ensures Step(m, PowerLost, Cut(m, None, [], 0)) && Cut(m, None, [], 0).history == [map[]]
  {
    hide CrashOk, Step, Recover;
    var d := m.image.disk;
    assert d.Current() in d.Journals() && d.Current().bytes[..0] == [];
    PowerCutSteps(m, None, []);
    EmptyDisk(None);
  }
}
