/**
  Virtual credentials of traced tasks: the set*id family, supplementary groups, exec
  and clone; and that a task which gave up its privileges never gets any back.
 */
module Credentials {
  import opened Types

  type Id = uint32

  const ROOT: Id := 0
  const UNCHANGED: Id := UINT32_MAX
  const MAX_GROUPS: nat := 65536

  const EPERM: int := 1
  const EFAULT: int := 14
  const EINVAL: int := 22

  datatype Ids = Ids(realId: Id, effective: Id, saved: Id, fs: Id)
  {
    function Three(): set<Id> { {realId, effective, saved} }
  }

  datatype Identity = Identity(user: Ids, group: Ids, groups: seq<Id>, noNewPrivileges: bool)

  datatype Call =
    | SetUid(id: Id) | SetGid(id: Id)
    | SetReUid(realId: Id, effective: Id) | SetResUid(realId: Id, effective: Id, saved: Id)
    | SetReGid(realId: Id, effective: Id) | SetResGid(realId: Id, effective: Id, saved: Id)
    | SetFsUid(id: Id) | SetFsGid(id: Id)
    | SetGroups(size: uint64, list: Option<seq<Id>>)   // None when the list cannot be read
    | SetNoNewPrivileges

  // ----- What each call does, on values

  function SetOne(ids: Ids, privileged: bool, id: Id): Option<Ids> {
    if privileged then Some(Ids(id, id, id, id))
    else if id != ids.realId && id != ids.saved then None
    else Some(ids.(effective := id, fs := id))
  }

  predicate MayBecome(ids: Ids, privileged: bool, id: Id) {
    id == UNCHANGED || privileged || id in ids.Three()
  }

  /** setresuid and setresgid. */
  function SetThree(ids: Ids, privileged: bool, realId: Id, effective: Id, saved: Id): Option<Ids> {
    if !MayBecome(ids, privileged, realId) || !MayBecome(ids, privileged, effective)
       || !MayBecome(ids, privileged, saved) then None
    else Some(Ids(
      if realId != UNCHANGED then realId else ids.realId,
      if effective != UNCHANGED then effective else ids.effective,
      if saved != UNCHANGED then saved else ids.saved,
      if effective != UNCHANGED then effective else ids.fs))
  }

  /** setreuid and setregid: the saved id follows the effective one if anything was set. */
  function SetTwo(ids: Ids, privileged: bool, realId: Id, effective: Id): Option<Ids> {
    match SetThree(ids, privileged, realId, effective, UNCHANGED)
    case None => None
    case Some(next) =>
      Some(if realId != UNCHANGED || effective != UNCHANGED then next.(saved := next.effective) else next)
  }

  function SetFs(ids: Ids, privileged: bool, id: Id): Ids {
    if privileged || id in ids.Three() || id == ids.fs then ids.(fs := id) else ids
  }

  function Next(c: Identity, call: Call): Identity {
    var privileged := c.user.effective == ROOT;
    match call
    case SetUid(id) => WithUser(c, SetOne(c.user, privileged, id))
    case SetGid(id) => WithGroup(c, SetOne(c.group, privileged, id))
    case SetReUid(r, e) => WithUser(c, SetTwo(c.user, privileged, r, e))
    case SetResUid(r, e, s) => WithUser(c, SetThree(c.user, privileged, r, e, s))
    case SetReGid(r, e) => WithGroup(c, SetTwo(c.group, privileged, r, e))
    case SetResGid(r, e, s) => WithGroup(c, SetThree(c.group, privileged, r, e, s))
    case SetFsUid(id) => c.(user := SetFs(c.user, privileged, id))
    case SetFsGid(id) => c.(group := SetFs(c.group, privileged, id))
    case SetGroups(size, list) =>
      if privileged && size <= MAX_GROUPS && list.Some? then c.(groups := list.value) else c
    case SetNoNewPrivileges => c.(noNewPrivileges := true)
  }

  function WithUser(c: Identity, user: Option<Ids>): Identity {
    if user.Some? then c.(user := user.value) else c
  }

  function WithGroup(c: Identity, group: Option<Ids>): Identity {
    if group.Some? then c.(group := group.value) else c
  }

  /** exec of a file whose set-id bits and owner are given, None for a bit that is clear. */
  function Executed(c: Identity, setUid: Option<Id>, setGid: Option<Id>): Identity {
    var e := if !c.noNewPrivileges && setUid.Some? then setUid.value else c.user.effective;
    var g := if !c.noNewPrivileges && setGid.Some? then setGid.value else c.group.effective;
    c.(user := Ids(c.user.realId, e, e, e), group := Ids(c.group.realId, g, g, g))
  }

  // ----- The handlers

  class Tracee {
    var realUid: Id
    var effectiveUid: Id
    var savedUid: Id
    var fsUid: Id
    var realGid: Id
    var effectiveGid: Id
    var savedGid: Id
    var fsGid: Id
    var groups: seq<Id>
    var noNewPrivileges: bool

    /** The first tracee of a session, with the ids asked for. */
    constructor (uid: Id, gid: Id)
      ensures Now() == Identity(Ids(uid, uid, uid, uid), Ids(gid, gid, gid, gid), [gid], false)
    {
      realUid, effectiveUid, savedUid, fsUid := uid, uid, uid, uid;
      realGid, effectiveGid, savedGid, fsGid := gid, gid, gid, gid;
      groups, noNewPrivileges := [gid], false;
    }

    function Now(): Identity
      reads this
    {
      Identity(Ids(realUid, effectiveUid, savedUid, fsUid), Ids(realGid, effectiveGid, savedGid, fsGid),
               groups, noNewPrivileges)
    }

    method HandleSetUid(uid: Id) returns (result: int)
      modifies this
      ensures Now() == Next(old(Now()), SetUid(uid))
      ensures result == if SetOne(old(Now()).user, old(effectiveUid) == ROOT, uid).Some? then 0 else -EPERM
    {
      if effectiveUid == ROOT {
        realUid, effectiveUid, savedUid, fsUid := uid, uid, uid, uid;
        return 0;
      }
      if uid != realUid && uid != savedUid { return -EPERM; }
      effectiveUid, fsUid := uid, uid;
      return 0;
    }

    /** setreuid, or setresuid when `three`. */
    method HandleSetResUid(realId: Id, effective: Id, third: Id, three: bool) returns (result: int)
      modifies this
      ensures Now() == Next(old(Now()), if three then SetResUid(realId, effective, third) else SetReUid(realId, effective))
      ensures result == if SetThree(old(Now()).user, old(effectiveUid) == ROOT, realId, effective,
                                    if three then third else UNCHANGED).Some? then 0 else -EPERM
    {
      var saved := if three then third else UNCHANGED;
      var privileged := effectiveUid == ROOT;
      if !MayBecome(Now().user, privileged, realId) || !MayBecome(Now().user, privileged, effective)
         || !MayBecome(Now().user, privileged, saved) {
        return -EPERM;
      }
      if realId != UNCHANGED { realUid := realId; }
      if effective != UNCHANGED { effectiveUid, fsUid := effective, effective; }
      if saved != UNCHANGED {
        savedUid := saved;
      } else if !three && (realId != UNCHANGED || effective != UNCHANGED) {
        savedUid := effectiveUid;
      }
      return 0;
    }

    method HandleSetFsUid(uid: Id) returns (result: int)
      modifies this
      ensures Now() == Next(old(Now()), SetFsUid(uid)) && result == old(fsUid)
    {
      result := fsUid;
      if effectiveUid == ROOT || uid == realUid || uid == effectiveUid || uid == savedUid || uid == fsUid {
        fsUid := uid;
      }
    }

    method HandleSetGid(gid: Id) returns (result: int)
      modifies this
      ensures Now() == Next(old(Now()), SetGid(gid))
      ensures result == if SetOne(old(Now()).group, old(effectiveUid) == ROOT, gid).Some? then 0 else -EPERM
    {
      if effectiveUid == ROOT {
        realGid, effectiveGid, savedGid, fsGid := gid, gid, gid, gid;
        return 0;
      }
      if gid != realGid && gid != savedGid { return -EPERM; }
      effectiveGid, fsGid := gid, gid;
      return 0;
    }

    /** setregid, or setresgid when `three`. */
    method HandleSetResGid(realId: Id, effective: Id, third: Id, three: bool) returns (result: int)
      modifies this
      ensures Now() == Next(old(Now()), if three then SetResGid(realId, effective, third) else SetReGid(realId, effective))
      ensures result == if SetThree(old(Now()).group, old(effectiveUid) == ROOT, realId, effective,
                                    if three then third else UNCHANGED).Some? then 0 else -EPERM
    {
      var saved := if three then third else UNCHANGED;
      var privileged := effectiveUid == ROOT;
      if !MayBecome(Now().group, privileged, realId) || !MayBecome(Now().group, privileged, effective)
         || !MayBecome(Now().group, privileged, saved) {
        return -EPERM;
      }
      if realId != UNCHANGED { realGid := realId; }
      if effective != UNCHANGED { effectiveGid, fsGid := effective, effective; }
      if saved != UNCHANGED {
        savedGid := saved;
      } else if !three && (realId != UNCHANGED || effective != UNCHANGED) {
        savedGid := effectiveGid;
      }
      return 0;
    }

    method HandleSetFsGid(gid: Id) returns (result: int)
      modifies this
      ensures Now() == Next(old(Now()), SetFsGid(gid)) && result == old(fsGid)
    {
      result := fsGid;
      if effectiveUid == ROOT || gid == realGid || gid == effectiveGid || gid == savedGid || gid == fsGid {
        fsGid := gid;
      }
    }

    method HandleSetGroups(size: uint64, list: Option<seq<Id>>) returns (result: int)
      modifies this
      ensures Now() == Next(old(Now()), SetGroups(size, list))
      ensures result == if old(effectiveUid) != ROOT then -EPERM else if size > MAX_GROUPS then -EINVAL
                        else if list.None? then -EFAULT else 0
    {
      if effectiveUid != ROOT { return -EPERM; }
      if size > MAX_GROUPS { return -EINVAL; }
      if list.None? { return -EFAULT; }
      groups := list.value;
      return 0;
    }

    method ApplyExecCredentialTransition(setUid: Option<Id>, setGid: Option<Id>)
      modifies this
      ensures Now() == Executed(old(Now()), setUid, setGid)
    {
      if !noNewPrivileges && setUid.Some? {
        effectiveUid, savedUid, fsUid := setUid.value, setUid.value, setUid.value;
      }
      if !noNewPrivileges && setGid.Some? {
        effectiveGid, savedGid, fsGid := setGid.value, setGid.value, setGid.value;
      }
      savedUid, fsUid := effectiveUid, effectiveUid;
      savedGid, fsGid := effectiveGid, effectiveGid;
    }
  }

  // ----- Privileges once given up

  /** No way back to root: no set-id exec will count, and none of the three user ids is root. */
  predicate Confined(c: Identity) {
    c.noNewPrivileges && ROOT !in c.user.Three()
  }

  predicate IdsWithin(start: Ids, now: Ids) {
    now.Three() <= start.Three() && now.fs in start.Three() + {start.fs}
  }

  /** `now` holds no id that `start` did not, and the same supplementary groups. */
  predicate Within(start: Identity, now: Identity) {
    && now.noNewPrivileges && now.groups == start.groups
    && IdsWithin(start.user, now.user) && IdsWithin(start.group, now.group)
  }

  lemma CallStaysWithin(start: Identity, c: Identity, call: Call)
    requires Confined(start) && Within(start, c)
    ensures Within(start, Next(c, call))
  {
    assert c.user.effective in start.user.Three();
  }

  lemma ExecStaysWithin(start: Identity, c: Identity, setUid: Option<Id>, setGid: Option<Id>)
    requires Confined(start) && Within(start, c)
    ensures Within(start, Executed(c, setUid, setGid))
  {
  }

  // ----- Runs of many tasks

  type Pid = int

  /** exec by thread `previous` replaces the identity of the thread group leader `pid`. */
  datatype Event =
    | ByCall(pid: Pid, call: Call)
    | Exec(pid: Pid, previous: Pid, setUid: Option<Id>, setGid: Option<Id>)
    | Clone(pid: Pid, child: Pid)
    | Exit(pid: Pid)

  type Tasks = map<Pid, Identity>

  function After(tasks: Tasks, e: Event): Tasks {
    match e
    case ByCall(pid, call) => if pid in tasks then tasks[pid := Next(tasks[pid], call)] else tasks
    case Exec(pid, previous, u, g) =>
      if previous in tasks then (tasks - {previous})[pid := Executed(tasks[previous], u, g)]
      else if pid in tasks then tasks[pid := Executed(tasks[pid], u, g)] else tasks
    case Clone(pid, child) => if pid in tasks then tasks[child := tasks[pid]] else tasks
    case Exit(pid) => tasks - {pid}
  }

  /** The tracees that run under an identity descended from that of one in `family`. */
  function Descended(tasks: Tasks, family: set<Pid>, e: Event): set<Pid> {
    match e
    case ByCall(_, _) => family
    case Exec(pid, previous, _, _) =>
      if previous !in tasks then family
      else if previous in family then family - {previous} + {pid} else family - {previous} - {pid}
    case Clone(pid, child) =>
      if pid !in tasks then family else if pid in family then family + {child} else family - {child}
    case Exit(pid) => family - {pid}
  }

  function TasksAfter(tasks: Tasks, run: seq<Event>): Tasks {
    if run == [] then tasks else After(TasksAfter(tasks, run[..|run| - 1]), run[|run| - 1])
  }

  function FamilyAfter(tasks: Tasks, family: set<Pid>, run: seq<Event>): set<Pid> {
    if run == [] then family
    else
      var init := run[..|run| - 1];
      Descended(TasksAfter(tasks, init), FamilyAfter(tasks, family, init), run[|run| - 1])
  }

  lemma EventStaysWithin(start: Identity, tasks: Tasks, family: set<Pid>, e: Event)
    requires Confined(start) && forall p | p in family && p in tasks :: Within(start, tasks[p])
    ensures forall p | p in Descended(tasks, family, e) && p in After(tasks, e) :: Within(start, After(tasks, e)[p])
  {
    hide Within, Confined, Next, Executed;
    match e
    case ByCall(pid, call) =>
      if pid in tasks && pid in family { CallStaysWithin(start, tasks[pid], call); }
    case Exec(pid, previous, u, g) =>
      if previous in tasks && previous in family { ExecStaysWithin(start, tasks[previous], u, g); }
      if pid in tasks && pid in family { ExecStaysWithin(start, tasks[pid], u, g); }
    case _ =>
  }

  /**
    Once a task has set no_new_privs and holds no root user id, then in every run of calls, execs and
    clones the ids of the tracee and of all its descendants stay among those it held, and their
    supplementary groups stay the same.
   */
  lemma {:induction false} PrivilegeNeverRegained(tasks: Tasks, pid: Pid, run: seq<Event>)
    requires pid in tasks && Confined(tasks[pid])
    ensures var now := TasksAfter(tasks, run);
            forall p | p in FamilyAfter(tasks, {pid}, run) && p in now :: Within(tasks[pid], now[p])
  {
    hide Within, Confined;
    if run == [] {
      Reflexive(tasks[pid]);
    } else {
      var init := run[..|run| - 1];
      PrivilegeNeverRegained(tasks, pid, init);
      EventStaysWithin(tasks[pid], TasksAfter(tasks, init), FamilyAfter(tasks, {pid}, init), run[|run| - 1]);
    }
  }

  lemma Reflexive(c: Identity)
    requires Confined(c)
    ensures Within(c, c)
  {
  }

  /** The condition is exact: an identity is confined just when no call and no exec makes it root. */
  lemma ConfinedExactly(c: Identity)
    ensures Confined(c) <==>
              && (forall call :: Next(c, call).user.effective != ROOT)
              && (forall u, g :: Executed(c, u, g).user.effective != ROOT)
  {
    if Confined(c) {
      forall call ensures Next(c, call).user.effective != ROOT {
        CallStaysConfined(c, call);
      }
    } else if c.noNewPrivileges {
      assert Next(c, SetResUid(UNCHANGED, ROOT, UNCHANGED)).user.effective == ROOT;
    } else {
      assert Executed(c, Some(ROOT), None).user.effective == ROOT;
    }
  }

  lemma CallStaysConfined(c: Identity, call: Call)
    requires Confined(c)
    ensures Next(c, call).user.effective != ROOT
  {
    Reflexive(c);
    CallStaysWithin(c, c, call);
  }
  // ----- What the calls give up, and what they grant

  /** setuid by root to another id gives up root for good, once no_new_privs is set: PrivilegeNeverRegained holds from there. */
  lemma DroppingIsPermanent(c: Identity, id: Id)
    requires c.user.effective == ROOT && id != ROOT
    ensures Next(c, SetUid(id)).user.Three() == {id} && Next(c, SetUid(id)).user.fs == id
    ensures c.noNewPrivileges ==> Confined(Next(c, SetUid(id)))
    ensures Confined(Next(Next(c, SetUid(id)), SetNoNewPrivileges))
  {
  }

  /** So in every run from there, the task and all its descendants have that id and no other. */
  lemma DroppedForGood(tasks: Tasks, pid: Pid, id: Id, run: seq<Event>)
    requires pid in tasks && tasks[pid].user.effective == ROOT && tasks[pid].noNewPrivileges && id != ROOT
    ensures var dropped := After(tasks, ByCall(pid, SetUid(id)));
            forall p | p in FamilyAfter(dropped, {pid}, run) && p in TasksAfter(dropped, run) ::
              TasksAfter(dropped, run)[p].user == Ids(id, id, id, id)
  {
    hide Next, TasksAfter, FamilyAfter, Within;
    var dropped := After(tasks, ByCall(pid, SetUid(id)));
    DroppingIsPermanent(tasks[pid], id);
    PrivilegeNeverRegained(dropped, pid, run);
    forall p | p in FamilyAfter(dropped, {pid}, run) && p in TasksAfter(dropped, run)
      ensures TasksAfter(dropped, run)[p].user == Ids(id, id, id, id)
    {
      OnlyOneId(dropped[pid], TasksAfter(dropped, run)[p], id);
    }
  }

  lemma OnlyOneId(start: Identity, now: Identity, id: Id)
    requires Within(start, now) && start.user.Three() == {id} && start.user.fs == id
    ensures now.user == Ids(id, id, id, id)
  {
    assert now.user.realId in now.user.Three() && now.user.effective in now.user.Three() && now.user.saved in now.user.Three();
  }

  /** setgid by root does the same to all group ids. */
  lemma GroupDroppingIsPermanent(c: Identity, id: Id)
    requires c.user.effective == ROOT
    ensures Next(c, SetGid(id)).group.Three() == {id} && Next(c, SetGid(id)).group.fs == id
    ensures Next(c, SetGid(id)).user == c.user
  {
  }

  /** By others, setuid and setgid change the effective id alone, to the real or the saved one, or nothing. */
  lemma OthersSetOne(c: Identity, id: Id)
    requires c.user.effective != ROOT
    ensures var u := Next(c, SetUid(id)).user;
            && u.realId == c.user.realId && u.saved == c.user.saved
            && (if id in {c.user.realId, c.user.saved} then u.effective == u.fs == id else u == c.user)
    ensures var g := Next(c, SetGid(id)).group;
            && g.realId == c.group.realId && g.saved == c.group.saved
            && (if id in {c.group.realId, c.group.saved} then g.effective == g.fs == id else g == c.group)
  {
  }

  /** A privilege put aside in the saved id can be taken up again, and by setuid to another id given up after all. */
  lemma TemporaryDrop(c: Identity, id: Id)
    requires c.user.effective == c.user.saved == ROOT && id != ROOT && id != UNCHANGED
    ensures var dropped := Next(c, SetResUid(UNCHANGED, id, UNCHANGED));
            && dropped.user == c.user.(effective := id, fs := id)
            && Next(dropped, SetUid(ROOT)).user == c.user.(fs := ROOT)
            && Next(Next(dropped, SetUid(ROOT)), SetUid(id)).user.Three() == {id}
  {
  }

  /** What has become of an id that a call was asked to set. */
  predicate AsAsked(asked: Id, was: Id, now: Id) { now == if asked == UNCHANGED then was else asked }

  /** A task other than root may ask for the ids it holds, root for any. */
  predicate Holds(c: Identity, ids: Ids, asked: Id) {
    asked == UNCHANGED || c.user.effective == ROOT || asked == ids.realId || asked == ids.effective || asked == ids.saved
  }

  ghost predicate ThreeSet(was: Ids, now: Ids, realId: Id, effective: Id, saved: Id) {
    && AsAsked(realId, was.realId, now.realId) && AsAsked(effective, was.effective, now.effective)
    && AsAsked(saved, was.saved, now.saved) && AsAsked(effective, was.fs, now.fs)
  }

  /** setresuid sets each id as asked, with the fs id after the effective one, or nothing if one of them is refused; setresgid likewise. */
  lemma ThreeAsAsked(c: Identity, realId: Id, effective: Id, saved: Id)
    ensures var u := Next(c, SetResUid(realId, effective, saved));
            && u == c.(user := u.user)
            && (if Holds(c, c.user, realId) && Holds(c, c.user, effective) && Holds(c, c.user, saved)
                then ThreeSet(c.user, u.user, realId, effective, saved) else u == c)
  {
  }

  lemma ThreeGroupsAsAsked(c: Identity, realId: Id, effective: Id, saved: Id)
    ensures var g := Next(c, SetResGid(realId, effective, saved));
            && g == c.(group := g.group)
            && (if Holds(c, c.group, realId) && Holds(c, c.group, effective) && Holds(c, c.group, saved)
                then ThreeSet(c.group, g.group, realId, effective, saved) else g == c)
  {
  }

  /** setreuid and setregid likewise; the saved id becomes the new effective one unless nothing was asked for. */
  lemma TwoAsAsked(c: Identity, realId: Id, effective: Id)
    ensures var u := Next(c, SetReUid(realId, effective));
            && u == c.(user := u.user)
            && (if Holds(c, c.user, realId) && Holds(c, c.user, effective)
                then AsAsked(realId, c.user.realId, u.user.realId) && AsAsked(effective, c.user.effective, u.user.effective)
                     && AsAsked(effective, c.user.fs, u.user.fs)
                     && u.user.saved == (if realId == effective == UNCHANGED then c.user.saved else u.user.effective)
                else u == c)
    ensures var g := Next(c, SetReGid(realId, effective));
            && g == c.(group := g.group)
            && (if Holds(c, c.group, realId) && Holds(c, c.group, effective)
                then AsAsked(realId, c.group.realId, g.group.realId) && AsAsked(effective, c.group.effective, g.group.effective)
                     && AsAsked(effective, c.group.fs, g.group.fs)
                     && g.group.saved == (if realId == effective == UNCHANGED then c.group.saved else g.group.effective)
                else g == c)
  {
  }

  /** setfsuid and setfsgid set the fs id alone, to one that is held; root to any. */
  lemma FsAsAsked(c: Identity, id: Id)
    ensures var u := Next(c, SetFsUid(id));
            u == if c.user.effective == ROOT || id in c.user.Three() then c.(user := c.user.(fs := id)) else c
    ensures var g := Next(c, SetFsGid(id));
            g == if c.user.effective == ROOT || id in c.group.Three() then c.(group := c.group.(fs := id)) else c
  {
  }

  /** Groups are root's to set, and nothing but setgroups changes them; nothing ever clears no_new_privs. */
  lemma GroupsAreRoots(c: Identity, call: Call)
    ensures Next(c, call).groups != c.groups ==>
              c.user.effective == ROOT && call.SetGroups? && call.list == Some(Next(c, call).groups)
    ensures c.user.effective == ROOT && call.SetGroups? && call.size <= 65536 && call.list.Some? ==>
              Next(c, call) == c.(groups := call.list.value)
    ensures Next(c, call).noNewPrivileges <==> c.noNewPrivileges || call.SetNoNewPrivileges?
  {
  }

  /** exec takes the owner of a set-id file as effective id unless no_new_privs is set, and forgets the saved and fs ids. */
  lemma ExecAsMarked(c: Identity, setUid: Option<Id>, setGid: Option<Id>)
    ensures var x := Executed(c, setUid, setGid);
            && x.user.realId == c.user.realId && x.group.realId == c.group.realId
            && x.groups == c.groups && x.noNewPrivileges == c.noNewPrivileges
            && x.user.saved == x.user.fs == x.user.effective && x.group.saved == x.group.fs == x.group.effective
            && (if c.noNewPrivileges || setUid.None? then x.user.effective == c.user.effective
                else x.user.effective == setUid.value)
            && (if c.noNewPrivileges || setGid.None? then x.group.effective == c.group.effective
                else x.group.effective == setGid.value)
  {
  }
}
